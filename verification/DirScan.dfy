module DirScan {
  // Scanning one system's directory (scanSystemDir of pkgs/arcade-webapp
  // internal/scanner/scanner.go): one row per game, with the bytes of the companion
  // files that travel with it. The directory walk's entries are given.

  import opened Options
  import opened Text
  import opened LauncherFile
  import G = GameTable
  import S = Stamps

  /** A regular file found below the directory, by its relative path. */
  datatype Found = Found(rel: string, size: nat)

  /** One call of the walk function: a file, or an error, which ends the walk; missing for ErrNotExist. */
  datatype Visit = Seen(file: Found) | Broken(missing: bool)

  type Walk = seq<Visit>

  ghost predicate Complete(walk: Walk) { forall k :: 0 <= k < |walk| ==> walk[k].Seen? }

  /** The walk ends here; that of an absent directory ends at once. */
  ghost predicate BreaksAt(walk: Walk, n: nat, missing: bool) {
    n < |walk| && walk[n] == Broken(missing) && forall k :: 0 <= k < n ==> walk[k].Seen?
  }

  function FilesSeen(walk: Walk): seq<Found> {
    if walk == [] then []
    else FilesSeen(walk[..|walk| - 1]) + if walk[|walk| - 1].Seen? then [walk[|walk| - 1].file] else []
  }

  // ---------------------------------------------------------------- names

  function FileName(rel: string): string { rel[LastIndexOf(rel, '/') + 1..] }

  /** filepath.Dir of a clean relative path. */
  function DirOf(rel: string): string {
    var i := LastIndexOf(rel, '/');
    if i < 0 then "." else rel[..i]
  }

  /** The path without its filepath.Ext. */
  function StripExt(rel: string): string {
    var i := LastIndexOf(rel, '/');
    rel[..i + 1] + Stem(rel[i + 1..])
  }

  predicate Hidden(rel: string) { HasPrefix(FileName(rel), ".") }

  // ---------------------------------------------------------------- attribution

  /** isRom: the system's extensions and .zip. */
  function Games(files: seq<Found>, isRom: string -> bool): seq<Found> {
    if files == [] then []
    else
      var last := files[|files| - 1];
      Games(files[..|files| - 1], isRom) + if !Hidden(last.rel) && isRom(FileName(last.rel)) then [last] else []
  }

  function Companions(files: seq<Found>, isRom: string -> bool): seq<Found> {
    if files == [] then []
    else
      var last := files[|files| - 1];
      Companions(files[..|files| - 1], isRom) + if !Hidden(last.rel) && !isRom(FileName(last.rel)) then [last] else []
  }

  predicate InDir(games: seq<Found>, i: nat, dir: string) { i < |games| && DirOf(games[i].rel) == dir }

  ghost predicate OnlyInDir(games: seq<Found>, i: nat, dir: string) {
    InDir(games, i, dir) && forall j: nat :: InDir(games, j, dir) ==> j == i
  }

  /** Game i shares the companion's directory and its extensionless path is a prefix of the companion's. */
  predicate Matches(games: seq<Found>, i: nat, c: Found) {
    InDir(games, i, DirOf(c.rel)) && HasPrefix(StripExt(c.rel), StripExt(games[i].rel))
  }

  /** Game j's name is shorter than game i's, or as long and not earlier. */
  predicate NoBetter(games: seq<Found>, j: nat, i: nat)
    requires i < |games| && j < |games|
  {
    |StripExt(games[j].rel)| < |StripExt(games[i].rel)| ||
    (|StripExt(games[j].rel)| == |StripExt(games[i].rel)| && i <= j)
  }

  /** Game i matches, no longer name matches, and none before it matches with as long a name. */
  ghost predicate LongestMatch(games: seq<Found>, i: nat, c: Found) {
    Matches(games, i, c) && forall j: nat :: Matches(games, j, c) ==> NoBetter(games, j, i)
  }

  /** The game a companion's bytes are charged to. */
  ghost predicate ChargedTo(games: seq<Found>, i: nat, c: Found) {
    if exists k: nat :: OnlyInDir(games, k, DirOf(c.rel)) then OnlyInDir(games, i, DirOf(c.rel))
      else LongestMatch(games, i, c)
  }

  lemma ChargedOnce(games: seq<Found>, i: nat, j: nat, c: Found)
    requires ChargedTo(games, i, c) && ChargedTo(games, j, c)
    ensures i == j
  {
    hide Matches, InDir;
  }

  /** The bytes of the first n companions that are charged to game i. */
  ghost function ChargedBytes(games: seq<Found>, companions: seq<Found>, n: nat, i: nat): nat
    requires n <= |companions|
  {
    if n == 0 then 0
    else ChargedBytes(games, companions, n - 1, i) + if ChargedTo(games, i, companions[n - 1])
      then companions[n - 1].size else 0
  }

  // ---------------------------------------------------------------- scanSystemDir

  datatype Row = Row(rel: string, size: nat)

  /** The indexes of the games of each directory, in walk order. */
  ghost predicate Indexes(byDir: map<string, seq<nat>>, games: seq<Found>, n: nat)
    requires n <= |games|
  {
    (forall i: nat :: i < n ==> DirOf(games[i].rel) in byDir && i in byDir[DirOf(games[i].rel)]) &&
    forall d :: d in byDir ==>
      (forall k :: 0 <= k < |byDir[d]| ==> byDir[d][k] < n && DirOf(games[byDir[d][k]].rel) == d) &&
      (forall j, k :: 0 <= j < k < |byDir[d]| ==> byDir[d][j] < byDir[d][k])
  }

  method IndexByDir(games: seq<Found>) returns (byDir: map<string, seq<nat>>)
    ensures Indexes(byDir, games, |games|)
  {
    hide DirOf;
    byDir := map[];
    for i := 0 to |games|
      invariant Indexes(byDir, games, i)
    {
      var d := DirOf(games[i].rel);
      byDir := byDir[d := (if d in byDir then byDir[d] else []) + [i]];
    }
  }

  /** The walk function's calls, up to the first error. */
  method SplitEntries(walk: Walk, isRom: string -> bool)
    returns (games: seq<Found>, companions: seq<Found>, broken: Option<bool>)
    ensures broken.None? ==>
      Complete(walk) && games == Games(FilesSeen(walk), isRom) && companions == Companions(FilesSeen(walk), isRom)
    ensures broken.Some? ==> exists n :: BreaksAt(walk, n, broken.value)
  {
    hide Hidden, FileName, FilesSeen, Games, Companions;
    games, companions := [], [];
    NothingSeen(isRom);
    for n := 0 to |walk|
      invariant Complete(walk[..n])
      invariant games == Games(FilesSeen(walk[..n]), isRom) && companions == Companions(FilesSeen(walk[..n]), isRom)
    {
      if walk[n].Broken? {
        assert forall k :: 0 <= k < n ==> walk[k] == walk[..n][k];
        assert BreaksAt(walk, n, walk[n].missing);
        return games, companions, Some(walk[n].missing);
      }
      var f := walk[n].file;
      OneFileMore(walk, n, isRom);
      if Hidden(f.rel) {
        continue;
      }
      if isRom(FileName(f.rel)) {
        games := games + [f];
      } else {
        companions := companions + [f];
      }
    }
    assert walk[..|walk|] == walk;
    broken := None;
  }

  lemma NothingSeen(isRom: string -> bool)
    ensures Games(FilesSeen([]), isRom) == [] && Companions(FilesSeen([]), isRom) == []
  {
  }

  lemma OneFileMore(walk: Walk, n: nat, isRom: string -> bool)
    requires n < |walk| && walk[n].Seen?
    ensures var f := walk[n].file;
      Games(FilesSeen(walk[..n + 1]), isRom) ==
        Games(FilesSeen(walk[..n]), isRom) + (if !Hidden(f.rel) && isRom(FileName(f.rel)) then [f] else []) &&
      Companions(FilesSeen(walk[..n + 1]), isRom) ==
        Companions(FilesSeen(walk[..n]), isRom) + (if !Hidden(f.rel) && !isRom(FileName(f.rel)) then [f] else [])
  {
    hide Hidden, FileName;
    assert walk[..n + 1][..n] == walk[..n];
    assert FilesSeen(walk[..n + 1]) == FilesSeen(walk[..n]) + [walk[n].file];
    assert (FilesSeen(walk[..n]) + [walk[n].file])[..|FilesSeen(walk[..n])|] == FilesSeen(walk[..n]);
  }

  /** The choice for one companion; -1 when no game is eligible. */
  method BestGame(games: seq<Found>, idx: seq<nat>, c: Found) returns (best: int)
    requires forall k :: 0 <= k < |idx| ==> InDir(games, idx[k], DirOf(c.rel))
    requires forall i: nat :: InDir(games, i, DirOf(c.rel)) ==> i in idx
    requires forall j, k :: 0 <= j < k < |idx| ==> idx[j] < idx[k]
    ensures -1 <= best < |games|
    ensures best >= 0 ==> ChargedTo(games, best, c)
    ensures best < 0 ==> forall i: nat :: !ChargedTo(games, i, c)
  {
    hide DirOf, StripExt;
    if |idx| == 1 {
      assert forall j: nat :: InDir(games, j, DirOf(c.rel)) ==> j == idx[0];
      assert OnlyInDir(games, idx[0], DirOf(c.rel));
      return idx[0];
    }
    best := -1;
    var bestLen := -1;
    var base := StripExt(c.rel);
    for k := 0 to |idx|
      invariant -1 <= best
      invariant best < 0 ==> bestLen == -1 && forall j :: 0 <= j < k ==> !Matches(games, idx[j], c)
      invariant best >= 0 ==> BestSoFar(games, idx, k, best, c) && bestLen == |StripExt(games[best].rel)|
    {
      var gb := StripExt(games[idx[k]].rel);
      if HasPrefix(base, gb) && |gb| > bestLen {
        best, bestLen := idx[k], |gb|;
      }
    }
    NoSoleGame(games, idx, c);
    forall i: nat | Matches(games, i, c)
      ensures exists k :: 0 <= k < |idx| && idx[k] == i
    {
      assert i in idx;
    }
    if best >= 0 {
      BestIsLongest(games, idx, best, c);
    }
  }

  /** best is the longest match among the first k candidates, the earliest of equals. */
  ghost predicate BestSoFar(games: seq<Found>, idx: seq<nat>, k: nat, best: nat, c: Found) {
    k <= |idx| && best < |games| && Matches(games, best, c) && (exists j :: 0 <= j < k && idx[j] == best) &&
    forall j :: 0 <= j < k && Matches(games, idx[j], c) ==> NoBetter(games, idx[j], best)
  }

  lemma BestIsLongest(games: seq<Found>, idx: seq<nat>, best: nat, c: Found)
    requires BestSoFar(games, idx, |idx|, best, c)
    requires forall i: nat :: Matches(games, i, c) ==> exists k :: 0 <= k < |idx| && idx[k] == i
    ensures LongestMatch(games, best, c)
  {
    hide StripExt, DirOf;
    forall j: nat | Matches(games, j, c)
      ensures NoBetter(games, j, best)
    {
      var k :| 0 <= k < |idx| && idx[k] == j;
    }
  }

  lemma NoSoleGame(games: seq<Found>, idx: seq<nat>, c: Found)
    requires |idx| != 1 && forall k :: 0 <= k < |idx| ==> InDir(games, idx[k], DirOf(c.rel))
    requires forall i: nat :: InDir(games, i, DirOf(c.rel)) ==> i in idx
    requires forall j, k :: 0 <= j < k < |idx| ==> idx[j] < idx[k]
    ensures !exists k: nat :: OnlyInDir(games, k, DirOf(c.rel))
  {
    forall i: nat
      ensures !OnlyInDir(games, i, DirOf(c.rel))
    {
      if |idx| >= 2 {
        assert InDir(games, idx[0], DirOf(c.rel)) && InDir(games, idx[1], DirOf(c.rel)) && idx[0] < idx[1];
      }
    }
  }

  /** The loop over the companions: their bytes are added to the games' sizes in place. */
  method Attribute(games: seq<Found>, companions: seq<Found>, sizes: array<nat>)
    requires sizes.Length == |games| && forall i :: 0 <= i < |games| ==> sizes[i] == games[i].size
    modifies sizes
    ensures forall i :: 0 <= i < |games| ==>
      sizes[i] == games[i].size + ChargedBytes(games, companions, |companions|, i)
  {
    hide DirOf, ChargedTo, Matches;
    var byDir := IndexByDir(games);
    for n := 0 to |companions|
      invariant forall i :: 0 <= i < |games| ==> sizes[i] == games[i].size + ChargedBytes(games, companions, n, i)
    {
      var c := companions[n];
      var d := DirOf(c.rel);
      var idx := if d in byDir then byDir[d] else [];
      var best := BestGame(games, idx, c);
      if best >= 0 {
        forall i: nat | i < |games| && i != best
          ensures !ChargedTo(games, i, c)
        {
          if ChargedTo(games, i, c) {
            ChargedOnce(games, i, best, c);
          }
        }
        sizes[best] := sizes[best] + c.size;
      }
    }
  }

  ghost predicate RowsOf(rows: seq<Row>, games: seq<Found>, companions: seq<Found>) {
    |rows| == |games| && forall i :: 0 <= i < |games| ==>
      rows[i] == Row(games[i].rel, games[i].size + ChargedBytes(games, companions, |companions|, i))
  }

  datatype Scan = NotPopulated | Failed | Rows(rows: seq<Row>)

  /** Any ErrNotExist raised inside the walk, at its root or later, reads as a system that is not populated. */
  ghost predicate EndsAs(walk: Walk, scan: Scan) {
    (scan.NotPopulated? <==> exists n :: BreaksAt(walk, n, true)) &&
    (scan.Failed? <==> exists n :: BreaksAt(walk, n, false)) &&
    (scan.Rows? <==> Complete(walk))
  }

  /** A permutation, in path order, of one row per game with its own bytes and those charged to it. */
  method ScanSystemDir(walk: Walk, isRom: string -> bool) returns (scan: Scan, ghost unsorted: seq<Row>)
    ensures EndsAs(walk, scan)
    ensures scan.Rows? ==>
      RowsOf(unsorted, Games(FilesSeen(walk), isRom), Companions(FilesSeen(walk), isRom)) &&
      multiset(scan.rows) == multiset(unsorted) && SortedBy(scan.rows, (r: Row) => r.rel)
  {
    hide RowsOf, Games, Companions, FilesSeen;
    unsorted := [];
    var games, companions, broken := SplitEntries(walk, isRom);
    if broken.Some? {
      return if broken.value then NotPopulated else Failed, [];
    }
    var rows := AttributedRows(games, companions);
    unsorted := rows;
    var sorted := SortByKey(rows, (r: Row) => r.rel);
    scan := Rows(sorted);
  }

  method AttributedRows(games: seq<Found>, companions: seq<Found>) returns (rows: seq<Row>)
    ensures RowsOf(rows, games, companions)
  {
    hide ChargedBytes;
    var sizes := new nat[|games|](i requires 0 <= i < |games| => games[i].size);
    Attribute(games, companions, sizes);
    rows := [];
    for i := 0 to |games|
      invariant |rows| == i && forall k :: 0 <= k < i ==> rows[k] == Row(games[k].rel, sizes[k])
    {
      rows := rows + [Row(games[i].rel, sizes[i])];
    }
  }

  // ---------------------------------------------------------------- conservation

  function TotalSize(files: seq<Found>): nat {
    if files == [] then 0 else TotalSize(files[..|files| - 1]) + files[|files| - 1].size
  }

  function TotalRows(rows: seq<Row>): nat {
    if rows == [] then 0 else TotalRows(rows[..|rows| - 1]) + rows[|rows| - 1].size
  }

  ghost predicate Eligible(games: seq<Found>, c: Found) { exists i: nat :: i < |games| && ChargedTo(games, i, c) }

  /** The sizes of the companions some game is eligible for. */
  ghost function EligibleBytes(games: seq<Found>, companions: seq<Found>, n: nat): nat
    requires n <= |companions|
  {
    if n == 0 then 0
    else EligibleBytes(games, companions, n - 1) + if Eligible(games, companions[n - 1])
      then companions[n - 1].size else 0
  }

  /** The bytes charged to the first m games. */
  ghost function ChargedToFirst(games: seq<Found>, companions: seq<Found>, n: nat, m: nat): nat
    requires n <= |companions| && m <= |games|
  {
    if m == 0 then 0 else ChargedToFirst(games, companions, n, m - 1) + ChargedBytes(games, companions, n, m - 1)
  }

  ghost predicate ChargedAmong(games: seq<Found>, c: Found, m: nat) { exists i: nat :: i < m && ChargedTo(games, i, c) }

  lemma {:induction false} OneCompanionMore(games: seq<Found>, companions: seq<Found>, n: nat, m: nat)
    requires n < |companions| && m <= |games|
    ensures ChargedToFirst(games, companions, n + 1, m) ==
      ChargedToFirst(games, companions, n, m) + if ChargedAmong(games, companions[n], m) then companions[n].size else 0
  {
    hide ChargedTo;
    if m > 0 {
      OneCompanionMore(games, companions, n, m - 1);
      var c := companions[n];
      if ChargedTo(games, m - 1, c) && ChargedAmong(games, c, m - 1) {
        var i: nat :| i < m - 1 && ChargedTo(games, i, c);
        ChargedOnce(games, i, m - 1, c);
      }
    }
  }

  lemma {:induction false} NoCompanionsYet(games: seq<Found>, companions: seq<Found>, m: nat)
    requires m <= |games|
    ensures ChargedToFirst(games, companions, 0, m) == 0
  {
    if m > 0 {
      NoCompanionsYet(games, companions, m - 1);
    }
  }

  lemma {:induction false} EligibleCharged(games: seq<Found>, companions: seq<Found>, n: nat)
    requires n <= |companions|
    ensures ChargedToFirst(games, companions, n, |games|) == EligibleBytes(games, companions, n)
  {
    hide ChargedTo;
    if n == 0 {
      NoCompanionsYet(games, companions, |games|);
    } else {
      EligibleCharged(games, companions, n - 1);
      OneCompanionMore(games, companions, n - 1, |games|);
      assert ChargedAmong(games, companions[n - 1], |games|) <==> Eligible(games, companions[n - 1]);
    }
  }

  lemma {:induction false} RowsTotal(rows: seq<Row>, games: seq<Found>, companions: seq<Found>, m: nat)
    requires RowsOf(rows, games, companions) && m <= |games|
    ensures TotalRows(rows[..m]) == TotalSize(games[..m]) + ChargedToFirst(games, companions, |companions|, m)
  {
    hide ChargedBytes;
    if m > 0 {
      RowsTotal(rows, games, companions, m - 1);
      assert rows[..m][..m - 1] == rows[..m - 1] && games[..m][..m - 1] == games[..m - 1];
    }
  }

  lemma {:induction false} TotalIsSum(rows: seq<Row>, i: nat)
    requires i < |rows|
    ensures TotalRows(rows) == TotalRows(rows[..i] + rows[i + 1..]) + rows[i].size
  {
    var last := |rows| - 1;
    if i == last {
      assert rows[..i] + rows[i + 1..] == rows[..last];
    } else {
      TotalIsSum(rows[..last], i);
      var rest := rows[..i] + rows[i + 1..];
      assert rest[..|rest| - 1] == rows[..last][..i] + rows[..last][i + 1..];
      assert rest[|rest| - 1] == rows[last];
    }
  }

  lemma Cancel<T>(x: multiset<T>, y: multiset<T>, e: T)
    requires x + multiset{e} == y + multiset{e}
    ensures x == y
  {
    assert x == x + multiset{e} - multiset{e} && y == y + multiset{e} - multiset{e};
  }

  lemma {:induction false} PermutationKeepsTotal(a: seq<Row>, b: seq<Row>)
    requires multiset(a) == multiset(b)
    ensures TotalRows(a) == TotalRows(b)
    decreases |a|
  {
    if a == [] {
      assert |multiset(b)| == 0;
    } else {
      var last := a[|a| - 1];
      assert a == a[..|a| - 1] + [last];
      assert last in multiset(b);
      var i :| 0 <= i < |b| && b[i] == last;
      var rest := b[..i] + b[i + 1..];
      assert b == b[..i] + [last] + b[i + 1..];
      assert multiset(a) == multiset(a[..|a| - 1]) + multiset{last};
      assert multiset(b) == multiset(rest) + multiset{last};
      Cancel(multiset(a[..|a| - 1]), multiset(rest), last);
      PermutationKeepsTotal(a[..|a| - 1], rest);
      TotalIsSum(b, i);
    }
  }

  /** The rows' sizes sum to the game files' plus every companion that has an eligible game, each once. */
  lemma BytesConserved(rows: seq<Row>, unsorted: seq<Row>, games: seq<Found>, companions: seq<Found>)
    requires multiset(rows) == multiset(unsorted) && RowsOf(unsorted, games, companions)
    ensures TotalRows(rows) == TotalSize(games) + EligibleBytes(games, companions, |companions|)
  {
    PermutationKeepsTotal(rows, unsorted);
    RowsTotal(unsorted, games, companions, |games|);
    assert unsorted[..|games|] == unsorted && games[..|games|] == games;
    EligibleCharged(games, companions, |companions|);
  }

  ghost predicate DistinctRels(files: seq<Found>) {
    forall j, k :: 0 <= j < k < |files| ==> files[j].rel != files[k].rel
  }

  /** The rows are exactly the game paths; from distinct paths they come in strict order, each with its charge. */
  lemma RowsAreGames(rows: seq<Row>, unsorted: seq<Row>, games: seq<Found>, companions: seq<Found>)
    requires multiset(rows) == multiset(unsorted) && RowsOf(unsorted, games, companions)
    requires SortedBy(rows, (r: Row) => r.rel)
    ensures forall r :: r in rows <==> exists i ::
      0 <= i < |games| && r == Row(games[i].rel, games[i].size + ChargedBytes(games, companions, |companions|, i))
    ensures DistinctRels(games) ==> forall j, k :: 0 <= j < k < |rows| ==> Before(rows[j].rel, rows[k].rel)
  {
    forall r
      ensures r in rows <==> exists i ::
        0 <= i < |games| && r == Row(games[i].rel, games[i].size + ChargedBytes(games, companions, |companions|, i))
    {
      assert r in multiset(rows) <==> r in multiset(unsorted);
      if r in unsorted {
        var i :| 0 <= i < |unsorted| && unsorted[i] == r;
      }
      if i: nat :|
        i < |games| && r == Row(games[i].rel, games[i].size + ChargedBytes(games, companions, |companions|, i)) {
        assert unsorted[i] == r;
      }
    }
    if DistinctRels(games) {
      forall j, k | 0 <= j < k < |rows|
        ensures Before(rows[j].rel, rows[k].rel)
      {
        SortedDistinct(rows, unsorted, games, companions, j, k);
      }
    }
  }

  lemma SortedDistinct(rows: seq<Row>, unsorted: seq<Row>, games: seq<Found>, companions: seq<Found>, j: nat, k: nat)
    requires multiset(rows) == multiset(unsorted) && RowsOf(unsorted, games, companions) && DistinctRels(games)
    requires SortedBy(rows, (r: Row) => r.rel) && j < k < |rows|
    ensures Before(rows[j].rel, rows[k].rel)
  {
    BeforeTotal(rows[j].rel, rows[k].rel);
    assert AtMost(rows[j].rel, rows[k].rel);
    if rows[j].rel == rows[k].rel {
      assert rows[j] in multiset(unsorted) && rows[k] in multiset(unsorted);
      var a :| 0 <= a < |unsorted| && unsorted[a] == rows[j];
      var b :| 0 <= b < |unsorted| && unsorted[b] == rows[k];
      assert a == b;
      TwiceIsTwo(rows, j, k);
      OnceIsOne(unsorted, a);
    }
  }

  lemma TwiceIsTwo(rows: seq<Row>, j: nat, k: nat)
    requires j < k < |rows| && rows[j] == rows[k]
    ensures multiset(rows)[rows[j]] >= 2
  {
    assert rows == rows[..j] + [rows[j]] + rows[j + 1..k] + [rows[k]] + rows[k + 1..];
  }

  lemma OnceIsOne(rows: seq<Row>, a: nat)
    requires a < |rows| && forall j :: 0 <= j < |rows| && j != a ==> rows[j].rel != rows[a].rel
    ensures multiset(rows)[rows[a]] == 1
  {
    assert rows == rows[..a] + [rows[a]] + rows[a + 1..];
    assert rows[a] !in rows[..a] && rows[a] !in rows[a + 1..];
  }

  // ---------------------------------------------------------------- what a scan does to the games table

  function ScannedRows(rows: seq<Row>): seq<G.Scanned> {
    seq(|rows|, k requires 0 <= k < |rows| => G.Scanned(rows[k].rel, rows[k].size, ""))
  }

  /** scanAll: a failed walk keeps the rows, any other scan replaces them if the store takes the replace. */
  function Recorded(t: G.Table, sys: string, scan: Scan, ts: string, stored: bool): G.Table {
    if scan.Failed? || !stored then t
    else G.Replace(t, sys, if scan.Rows? then ScannedRows(scan.rows) else [], ts)
  }

  /**
   A walk that breaks keeps the system's rows exactly when the error is not ErrNotExist or
   the store refuses the replace: otherwise a file or directory that vanishes during the
   walk costs the system every row it had.
   */
  lemma BrokenWalkKeepsRowsExactly(t: G.Table, sys: string, walk: Walk, n: nat, missing: bool, scan: Scan,
                                   at: S.Time, stored: bool, id: G.GameId)
    requires EndsAs(walk, scan) && BreaksAt(walk, n, missing)
    requires S.Valid(at) && G.SeenBefore(t, sys, at) && id in t && id.sys == sys
    ensures id in Recorded(t, sys, scan, S.Stamp(at), stored) <==> !missing || !stored
  {
    hide G.Replace, G.StampedBefore, S.Stamp;
    assert exists m :: BreaksAt(walk, m, missing);
    assert missing ==> forall m :: !BreaksAt(walk, m, false);
    assert !missing ==> forall m :: !BreaksAt(walk, m, true);
    if missing && stored {
      G.ReplaceLeavesScanned(t, sys, [], at);
      assert id == G.GameId(sys, id.rel);
    }
  }

  /** A game seen by the last scan and by this one is gone when the next file vanishes during the walk. */
  lemma VanishedFileExample(before: S.Time, at: S.Time, scan: Scan)
    requires S.Valid(before) && S.Valid(at) && S.Earlier(before, at)
    requires EndsAs([Seen(Found("a.nes", 1)), Broken(true)], scan)
    ensures var id := G.GameId("nes", "a.nes");
      var t := map[id := G.NewRow(G.Scanned("a.nes", 1, ""), S.Stamp(before))];
      id !in Recorded(t, "nes", scan, S.Stamp(at), true)
  {
    hide S.Stamp, S.Earlier, EndsAs, Recorded;
    var id := G.GameId("nes", "a.nes");
    var t := map[id := G.NewRow(G.Scanned("a.nes", 1, ""), S.Stamp(before))];
    G.IsStampedBefore(before, at);
    BrokenWalkKeepsRowsExactly(t, "nes", [Seen(Found("a.nes", 1)), Broken(true)], 1, true, scan, at, true, id);
  }

  // ---------------------------------------------------------------- which files are which, and what a scan leaves

  /** A name as the walk gives it: in a directory or at the top, with or without an extension. */
  lemma NamesOf(dir: string, name: string)
    requires '/' !in name
    ensures FileName(dir + "/" + name) == name && DirOf(dir + "/" + name) == dir
    ensures FileName(name) == name && DirOf(name) == "." && StripExt(name) == Stem(name)
    ensures StripExt(dir + "/" + name) == dir + "/" + Stem(name)
  {
    var rel := dir + "/" + name;
    assert rel[|dir|] == '/' && rel[|dir| + 1..] == name && rel[..|dir|] == dir;
    LastSlash(dir, name);
    assert rel[..|dir| + 1] == dir + "/";
    assert LastIndexOf(name, '/') < 0;
    assert name[..0] == "" && name[0..] == name;
  }

  lemma LastSlash(dir: string, name: string)
    requires '/' !in name
    ensures LastIndexOf(dir + "/" + name, '/') == |dir|
  {
    var rel := dir + "/" + name;
    assert rel[|dir|] == '/' && rel[|dir| + 1..] == name;
  }

  /** Among the files, the games by position: what is not hidden and has an extension of the system. */
  lemma {:induction false} GamesExactly(files: seq<Found>, isRom: string -> bool) returns (idx: seq<nat>)
    ensures Picks(Games(files, isRom), files, idx)
    ensures forall i: nat :: i in idx <==> (
      i < |files| && !HasPrefix(FileName(files[i].rel), ".") && isRom(FileName(files[i].rel)))
  {
    hide FileName, Picks;
    idx := [];
    if files == [] {
      NothingPicked();
    } else {
      var n := |files| - 1;
      idx := GamesExactly(files[..n], isRom);
      var before := Games(files[..n], isRom);
      OneMorePicked(before, files, idx);
      if !Hidden(files[n].rel) && isRom(FileName(files[n].rel)) {
        idx := idx + [n];
      } else {
        assert Games(files, isRom) == before + [] == before;
      }
    }
  }

  /** The companions: what is neither hidden nor a game. */
  lemma {:induction false} CompanionsExactly(files: seq<Found>, isRom: string -> bool) returns (idx: seq<nat>)
    ensures Picks(Companions(files, isRom), files, idx)
    ensures forall i: nat :: i in idx <==> (
      i < |files| && !HasPrefix(FileName(files[i].rel), ".") && !isRom(FileName(files[i].rel)))
  {
    hide FileName, Picks;
    idx := [];
    if files == [] {
      NothingPicked();
    } else {
      var n := |files| - 1;
      idx := CompanionsExactly(files[..n], isRom);
      var before := Companions(files[..n], isRom);
      OneMorePicked(before, files, idx);
      if !Hidden(files[n].rel) && !isRom(FileName(files[n].rel)) {
        idx := idx + [n];
      } else {
        assert Companions(files, isRom) == before + [] == before;
      }
    }
  }

  lemma NothingPicked()
    ensures Picks([], [], [])
  {
  }

  lemma OneMorePicked(picked: seq<Found>, files: seq<Found>, idx: seq<nat>)
    requires files != [] && Picks(picked, files[..|files| - 1], idx)
    ensures Picks(picked, files, idx) && Picks(picked + [files[|files| - 1]], files, idx + [|files| - 1])
  {
  }

  /** The picked files are those at the positions idx, in order. */
  ghost predicate Picks(picked: seq<Found>, files: seq<Found>, idx: seq<nat>) {
    Increasing(idx) && |picked| == |idx| &&
    forall k :: 0 <= k < |idx| ==> idx[k] < |files| && picked[k] == files[idx[k]]
  }

  lemma {:induction false} FilesSeenAre(walk: Walk)
    requires Complete(walk)
    ensures |FilesSeen(walk)| == |walk| && forall k :: 0 <= k < |walk| ==> FilesSeen(walk)[k] == walk[k].file
  {
    if walk != [] {
      FilesSeenAre(walk[..|walk| - 1]);
    }
  }

  /**
   A complete scan the store takes leaves the system with exactly the games of the walk,
   each with its own bytes and those charged to it.
   */
  lemma ScanLeavesGames(t: G.Table, sys: string, walk: Walk, isRom: string -> bool, rows: seq<Row>,
                        unsorted: seq<Row>, at: S.Time, rel: string)
    requires S.Valid(at) && G.SeenBefore(t, sys, at)
    requires Complete(walk) && DistinctRels(Games(FilesSeen(walk), isRom))
    requires RowsOf(unsorted, Games(FilesSeen(walk), isRom), Companions(FilesSeen(walk), isRom))
    requires multiset(rows) == multiset(unsorted) && SortedBy(rows, (r: Row) => r.rel)
    ensures var r := Recorded(t, sys, Rows(rows), S.Stamp(at), true); var files := FilesSeen(walk);
      var games, companions := Games(files, isRom), Companions(files, isRom);
      (G.GameId(sys, rel) in r <==> exists i :: 0 <= i < |games| && games[i].rel == rel) &&
      forall i :: 0 <= i < |games| && games[i].rel == rel ==>
        r[G.GameId(sys, rel)].size == games[i].size + ChargedBytes(games, companions, |companions|, i)
  {
    hide G.Replace, S.Stamp, ChargedBytes, Games, Companions, FilesSeen, RowsOf;
    var files := FilesSeen(walk);
    var games, companions := Games(files, isRom), Companions(files, isRom);
    RowsAreGames(rows, unsorted, games, companions);
    var scanned := ScannedRows(rows);
    RowsScanOnce(rows);
    G.ReplaceLeavesScanned(t, sys, scanned, at);
    var id := G.GameId(sys, rel);
    if G.ScansPath(scanned, rel, |scanned|) {
      var k :| 0 <= k < |scanned| && scanned[k].rel == rel;
      G.ReplacedFields(t, sys, scanned, S.Stamp(at), k);
      assert rows[k] in rows;
    }
    forall i | 0 <= i < |games| && games[i].rel == rel
      ensures G.ScansPath(scanned, rel, |scanned|)
    {
      var row := Row(games[i].rel, games[i].size + ChargedBytes(games, companions, |companions|, i));
      assert row in rows;
      var k :| 0 <= k < |rows| && rows[k] == row;
      assert scanned[k].rel == rel;
    }
  }

  lemma RowsScanOnce(rows: seq<Row>)
    requires forall j, k :: 0 <= j < k < |rows| ==> Before(rows[j].rel, rows[k].rel)
    ensures G.DistinctPaths(ScannedRows(rows))
  {
    forall j, k | 0 <= j < k < |rows|
      ensures rows[j].rel != rows[k].rel
    {
      BeforeTotal(rows[j].rel, rows[k].rel);
    }
  }
}
