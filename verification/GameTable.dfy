module GameTable {
  // The games table (ReplaceSystemGames, SetSystemScrapeFlags and SetGameMeta of
  // pkgs/arcade-webapp/internal/store/store.go). A table is a map; a transaction that
  // fails leaves it as it was.

  import opened Text
  import opened Stamps

  datatype GameId = GameId(sys: string, rel: string)

  datatype Meta = Meta(description: string, release: string, developer: string, publisher: string, genre: string,
                       rating: string)

  datatype Row = Row(size: nat, firstSeen: string, lastSeen: string, title: string, hidden: bool, verifyState: string,
                     hasDescription: bool, hasCover: bool, sha1: string, meta: Meta)

  type Table = map<GameId, Row>

  const NO_META := Meta("", "", "", "", "", "")

  /** One game as a scan found it. */
  datatype Scanned = Scanned(rel: string, size: nat, title: string)

  // ---------------------------------------------------------------- ReplaceSystemGames

  function NewRow(g: Scanned, ts: string): Row {
    Row(g.size, ts, ts, g.title, false, "", false, false, "", NO_META)
  }

  function Rescanned(row: Row, g: Scanned, ts: string): Row {
    row.(size := g.size, lastSeen := ts, title := if g.title != "" then g.title else row.title)
  }

  function Upsert(t: Table, sys: string, g: Scanned, ts: string): Table {
    var id := GameId(sys, g.rel);
    t[id := if id in t then Rescanned(t[id], g, ts) else NewRow(g, ts)]
  }

  function UpsertAll(t: Table, sys: string, games: seq<Scanned>, ts: string, n: nat): Table
    requires n <= |games|
  {
    if n == 0 then t else Upsert(UpsertAll(t, sys, games, ts, n - 1), sys, games[n - 1], ts)
  }

  predicate Outdated(id: GameId, row: Row, sys: string, ts: string) {
    id.sys == sys && Before(row.lastSeen, ts)
  }

  function Prune(t: Table, sys: string, ts: string): Table {
    map id | id in t && !Outdated(id, t[id], sys, ts) :: t[id]
  }

  function Replace(t: Table, sys: string, games: seq<Scanned>, ts: string): Table {
    Prune(UpsertAll(t, sys, games, ts, |games|), sys, ts)
  }

  /** A scan lists every path once. */
  ghost predicate DistinctPaths(games: seq<Scanned>) {
    forall j, k :: 0 <= j < k < |games| ==> games[j].rel != games[k].rel
  }

  ghost predicate ScansPath(games: seq<Scanned>, rel: string, n: nat)
    requires n <= |games|
  {
    exists k :: 0 <= k < n && games[k].rel == rel
  }

  lemma {:induction false} UpsertedRow(t: Table, sys: string, games: seq<Scanned>, ts: string, n: nat, k: nat)
    requires DistinctPaths(games) && k < n <= |games|
    ensures var id := GameId(sys, games[k].rel); var r := UpsertAll(t, sys, games, ts, n);
      id in r && r[id] == if id in t then Rescanned(t[id], games[k], ts) else NewRow(games[k], ts)
  {
    if k < n - 1 {
      UpsertedRow(t, sys, games, ts, n - 1, k);
    } else {
      UnscannedRow(t, sys, games, ts, n - 1, GameId(sys, games[k].rel));
    }
  }

  lemma {:induction false} UnscannedRow(t: Table, sys: string, games: seq<Scanned>, ts: string, n: nat, id: GameId)
    requires n <= |games| && (id.sys != sys || !ScansPath(games, id.rel, n))
    ensures var r := UpsertAll(t, sys, games, ts, n); (id in r <==> id in t) && (id in t ==> r[id] == t[id])
  {
    if n > 0 {
      assert !ScansPath(games, id.rel, n) ==> games[n - 1].rel != id.rel;
      UnscannedRow(t, sys, games, ts, n - 1, id);
    }
  }

  /**
   After a replace the system has exactly the scanned paths and the older rows whose
   stamp does not sort below the new one. A known game keeps everything but size, stamp
   and a title the scan knows; other systems are untouched.
   */
  lemma ReplacedExactly(t: Table, sys: string, games: seq<Scanned>, ts: string, id: GameId)
    requires DistinctPaths(games)
    ensures var r := Replace(t, sys, games, ts);
      (id.sys != sys || !ScansPath(games, id.rel, |games|) ==>
        (id in r <==> id in t && !Outdated(id, t[id], sys, ts)) && (id in r ==> r[id] == t[id])) &&
      (forall k :: 0 <= k < |games| && id == GameId(sys, games[k].rel) ==>
        id in r && r[id] == if id in t then Rescanned(t[id], games[k], ts) else NewRow(games[k], ts))
  {
    hide UpsertAll;
    BeforeTotal(ts, ts);
    if id.sys != sys || !ScansPath(games, id.rel, |games|) {
      UnscannedRow(t, sys, games, ts, |games|, id);
    }
    forall k | 0 <= k < |games| && id == GameId(sys, games[k].rel)
      ensures var r := Replace(t, sys, games, ts);
        id in r && r[id] == if id in t then Rescanned(t[id], games[k], ts) else NewRow(games[k], ts)
    {
      UpsertedRow(t, sys, games, ts, |games|, k);
    }
  }

  /** A row field by field after a replace that lists its game. */
  lemma ReplacedFields(t: Table, sys: string, games: seq<Scanned>, ts: string, k: nat)
    requires DistinctPaths(games) && k < |games|
    ensures var id := GameId(sys, games[k].rel); var r := Replace(t, sys, games, ts);
      id in r && r[id].size == games[k].size && r[id].lastSeen == ts &&
      (id !in t ==>
        r[id].firstSeen == ts && r[id].title == games[k].title && !r[id].hidden && r[id].verifyState == "" &&
        !r[id].hasDescription && !r[id].hasCover && r[id].sha1 == "" && r[id].meta == Meta("", "", "", "", "", "")) &&
      (id in t ==>
        r[id].firstSeen == t[id].firstSeen && r[id].hidden == t[id].hidden && r[id].verifyState == t[id].verifyState &&
        r[id].hasDescription == t[id].hasDescription && r[id].hasCover == t[id].hasCover &&
        r[id].sha1 == t[id].sha1 && r[id].meta == t[id].meta &&
        r[id].title == if games[k].title != "" then games[k].title else t[id].title)
  {
    hide Replace;
    ReplacedExactly(t, sys, games, ts, GameId(sys, games[k].rel));
  }

  // ---------------------------------------------------------------- successive scans

  datatype Scan = Scan(games: seq<Scanned>, at: Time)

  function ScanAll(t: Table, sys: string, scans: seq<Scan>, n: nat): Table
    requires n <= |scans|
  {
    if n == 0 then t else Replace(ScanAll(t, sys, scans, n - 1), sys, scans[n - 1].games, Stamp(scans[n - 1].at))
  }

  /** Each scan is later than the one before, at a representable time, and lists every path once. */
  ghost predicate InOrder(scans: seq<Scan>) {
    (forall k :: 0 <= k < |scans| ==> Valid(scans[k].at) && DistinctPaths(scans[k].games)) &&
    forall k :: 0 < k < |scans| ==> Earlier(scans[k - 1].at, scans[k].at)
  }

  /** Every row of the system was last seen before at, stamped by this or an older binary. */
  ghost predicate SeenBefore(t: Table, sys: string, at: Time) {
    forall id :: id in t && id.sys == sys ==> StampedBefore(t[id].lastSeen, at)
  }

  ghost predicate StampedBefore(stamp: string, at: Time) {
    (exists s :: Valid(s) && Earlier(s, at) && stamp == Stamp(s)) ||
    (exists s :: Valid(s) && EarlierSecond(s, at) && stamp == LegacyStamp(s))
  }

  lemma StampedBeforeSorts(stamp: string, at: Time)
    requires StampedBefore(stamp, at) && Valid(at)
    ensures Before(stamp, Stamp(at))
  {
    hide Stamp, LegacyStamp, Earlier, EarlierSecond;
    if s :| Valid(s) && Earlier(s, at) && stamp == Stamp(s) {
      StampsOrderTime(s, at);
    } else {
      var s :| Valid(s) && EarlierSecond(s, at) && stamp == LegacyStamp(s);
      LegacyOrdersExactly(s, at);
    }
  }

  /** A replace at a later time leaves exactly the scanned paths, all stamped with that time. */
  lemma ReplaceLeavesScanned(t: Table, sys: string, games: seq<Scanned>, at: Time)
    requires Valid(at) && DistinctPaths(games) && SeenBefore(t, sys, at)
    ensures var r := Replace(t, sys, games, Stamp(at));
      forall rel :: (GameId(sys, rel) in r <==> ScansPath(games, rel, |games|)) &&
        (GameId(sys, rel) in r ==> r[GameId(sys, rel)].lastSeen == Stamp(at))
  {
    hide Replace, Stamp, StampedBefore;
    var r := Replace(t, sys, games, Stamp(at));
    forall rel
      ensures GameId(sys, rel) in r <==> ScansPath(games, rel, |games|)
      ensures GameId(sys, rel) in r ==> r[GameId(sys, rel)].lastSeen == Stamp(at)
    {
      var id := GameId(sys, rel);
      ReplacedExactly(t, sys, games, Stamp(at), id);
      if id in t {
        StampedBeforeSorts(t[id].lastSeen, at);
      }
    }
  }

  lemma {:induction false} ScansLeaveLast(t: Table, sys: string, scans: seq<Scan>, n: nat)
    requires 0 < n <= |scans| && InOrder(scans) && SeenBefore(t, sys, scans[0].at)
    ensures var r := ScanAll(t, sys, scans, n);
      forall rel :: (GameId(sys, rel) in r <==> ScansPath(scans[n - 1].games, rel, |scans[n - 1].games|)) &&
        (GameId(sys, rel) in r ==> r[GameId(sys, rel)].lastSeen == Stamp(scans[n - 1].at))
  {
    hide Replace, Stamp, StampedBefore, Earlier, Valid;
    var before := ScanAll(t, sys, scans, n - 1);
    if n > 1 {
      ScansLeaveLast(t, sys, scans, n - 1);
      assert Earlier(scans[n - 2].at, scans[n - 1].at);
      forall id | id in before && id.sys == sys
        ensures StampedBefore(before[id].lastSeen, scans[n - 1].at)
      {
        assert id == GameId(sys, id.rel);
        IsStampedBefore(scans[n - 2].at, scans[n - 1].at);
      }
    }
    ReplaceLeavesScanned(before, sys, scans[n - 1].games, scans[n - 1].at);
  }

  lemma IsStampedBefore(s: Time, at: Time)
    requires Valid(s) && Earlier(s, at)
    ensures StampedBefore(Stamp(s), at)
  {
  }

  /** The path is listed by every scan from the i-th to the n-th. */
  ghost predicate SeenSince(scans: seq<Scan>, rel: string, i: nat, n: nat)
    requires i < n <= |scans|
  {
    forall k :: i <= k < n ==> ScansPath(scans[k].games, rel, |scans[k].games|)
  }

  /**
   On a table without rows of the system, a game's first_seen is the time of the first
   scan in the unbroken run of scans that leads up to now: a gap starts it anew.
   */
  lemma {:induction false} FirstSeenIsStartOfRun(t: Table, sys: string, scans: seq<Scan>, rel: string, i: nat, n: nat)
    requires i < n <= |scans| && InOrder(scans) && (forall id :: id in t ==> id.sys != sys)
    requires SeenSince(scans, rel, i, n) && (i == 0 || !ScansPath(scans[i - 1].games, rel, |scans[i - 1].games|))
    ensures var r := ScanAll(t, sys, scans, n);
      GameId(sys, rel) in r && r[GameId(sys, rel)].firstSeen == Stamp(scans[i].at)
  {
    hide Replace, Stamp, StampedBefore, Earlier, Valid;
    var id := GameId(sys, rel);
    var before := ScanAll(t, sys, scans, n - 1);
    if i < n - 1 {
      FirstSeenIsStartOfRun(t, sys, scans, rel, i, n - 1);
    } else if n > 1 {
      ScansLeaveLast(t, sys, scans, n - 1);
    }
    assert ScansPath(scans[n - 1].games, rel, |scans[n - 1].games|);
    var k :| 0 <= k < |scans[n - 1].games| && scans[n - 1].games[k].rel == rel;
    ReplacedExactly(before, sys, scans[n - 1].games, Stamp(scans[n - 1].at), id);
  }

  /** What scanning never touches. */
  ghost predicate SameCuration(a: Row, b: Row) {
    a.hidden == b.hidden && a.verifyState == b.verifyState && a.hasDescription == b.hasDescription &&
    a.hasCover == b.hasCover && a.sha1 == b.sha1 && a.meta == b.meta && a.firstSeen == b.firstSeen
  }

  /** Curation survives any sequence of scans that all list the game; so does a title no scan replaces. */
  lemma {:induction false} CurationSurvives(t: Table, sys: string, scans: seq<Scan>, rel: string, n: nat)
    requires n <= |scans| && InOrder(scans) && GameId(sys, rel) in t
    requires forall k :: 0 <= k < n ==> ScansPath(scans[k].games, rel, |scans[k].games|)
    ensures var r := ScanAll(t, sys, scans, n);
      GameId(sys, rel) in r &&
      SameCuration(t[GameId(sys, rel)], r[GameId(sys, rel)]) &&
      (t[GameId(sys, rel)].title != "" ==> r[GameId(sys, rel)].title != "")
  {
    hide Replace, Stamp, Earlier, Valid;
    if n > 0 {
      CurationSurvives(t, sys, scans, rel, n - 1);
      var games := scans[n - 1].games;
      var k :| 0 <= k < |games| && games[k].rel == rel;
      ReplacedExactly(ScanAll(t, sys, scans, n - 1), sys, games, Stamp(scans[n - 1].at), GameId(sys, rel));
    }
  }

  /** A legacy row of the very second of a replace is not pruned by it, scanned or not. */
  lemma LegacySurvivesOneCycle(t: Table, sys: string, games: seq<Scanned>, at: Time, id: GameId, seen: Time)
    requires Valid(at) && Valid(seen) && DistinctPaths(games) && id in t && id.sys == sys
    requires t[id].lastSeen == LegacyStamp(seen) && !ScansPath(games, id.rel, |games|)
    ensures id in Replace(t, sys, games, Stamp(at)) <==> !EarlierSecond(seen, at)
  {
    hide Replace, Stamp, LegacyStamp, EarlierSecond;
    LegacyOrdersExactly(seen, at);
    ReplacedExactly(t, sys, games, Stamp(at), id);
  }

  // ---------------------------------------------------------------- flags and enrichment

  datatype Flags = Flags(rel: string, description: bool, cover: bool)

  function Flagged(row: Row, description: bool, cover: bool): Row {
    row.(hasDescription := description, hasCover := cover)
  }

  function Unflagged(t: Table, sys: string): Table {
    map id | id in t :: if id.sys == sys then Flagged(t[id], false, false) else t[id]
  }

  function FlagAll(t: Table, sys: string, flags: seq<Flags>, n: nat): Table
    requires n <= |flags|
  {
    if n == 0 then Unflagged(t, sys)
    else
      var before, f := FlagAll(t, sys, flags, n - 1), flags[n - 1];
      var id := GameId(sys, f.rel);
      if id in before then before[id := Flagged(before[id], f.description, f.cover)] else before
  }

  function Selected(new': string, old': string): string { if new' != "" then new' else old' }

  function MergeMeta(old': Meta, m: Meta): Meta {
    Meta(Selected(m.description, old'.description), Selected(m.release, old'.release),
         Selected(m.developer, old'.developer), Selected(m.publisher, old'.publisher),
         Selected(m.genre, old'.genre), Selected(m.rating, old'.rating))
  }

  datatype GameMeta = GameMeta(rel: string, meta: Meta)

  function MetaAll(t: Table, sys: string, metas: seq<GameMeta>, n: nat): Table
    requires n <= |metas|
  {
    if n == 0 then t
    else
      var before, m := MetaAll(t, sys, metas, n - 1), metas[n - 1];
      var id := GameId(sys, m.rel);
      if id in before then before[id := before[id].(meta := MergeMeta(before[id].meta, m.meta))] else before
  }

  /** Flags describe the whole system: what is not listed is unflagged, whatever it was. */
  lemma {:induction false} FlagsReplaceAll(t: Table, sys: string, flags: seq<Flags>, n: nat, id: GameId)
    requires n <= |flags| && id in t && id.sys == sys
    requires forall k :: 0 <= k < n ==> flags[k].rel != id.rel
    ensures id in FlagAll(t, sys, flags, n) && FlagAll(t, sys, flags, n)[id] == Flagged(t[id], false, false)
  {
    if n > 0 {
      FlagsReplaceAll(t, sys, flags, n - 1, id);
    }
  }

  /** All but the two flags. */
  ghost predicate SameButFlags(a: Row, b: Row) {
    a.size == b.size && a.firstSeen == b.firstSeen && a.lastSeen == b.lastSeen && a.title == b.title &&
    a.hidden == b.hidden && a.verifyState == b.verifyState && a.sha1 == b.sha1 && a.meta == b.meta
  }

  /** A game ends with the flags listed last for it, or with none; nothing else of it changes, nor any other system. */
  lemma {:induction false} FlagsExactly(t: Table, sys: string, flags: seq<Flags>, n: nat, id: GameId)
    requires n <= |flags| && id in t
    ensures var r := FlagAll(t, sys, flags, n);
      r.Keys == t.Keys && SameButFlags(r[id], t[id]) && (id.sys != sys ==> r[id] == t[id]) &&
      (id.sys == sys ==>
        (forall k :: 0 <= k < n && flags[k].rel == id.rel && (forall m :: k < m < n ==> flags[m].rel != id.rel) ==>
          r[id].hasDescription == flags[k].description && r[id].hasCover == flags[k].cover) &&
        ((forall k :: 0 <= k < n ==> flags[k].rel != id.rel) ==> !r[id].hasDescription && !r[id].hasCover))
  {
    if n > 0 {
      FlagsExactly(t, sys, flags, n - 1, id);
    }
  }

  /** A game's metadata after updates of which one is its own, field by field: what is not empty is taken over. */
  lemma {:induction false} MetaExactly(t: Table, sys: string, metas: seq<GameMeta>, n: nat, k: nat, id: GameId)
    requires k < n <= |metas| && id in t && id == GameId(sys, metas[k].rel)
    requires forall j :: 0 <= j < n && j != k ==> metas[j].rel != id.rel
    ensures var r, m := MetaAll(t, sys, metas, n), metas[k].meta;
      r.Keys == t.Keys && r[id] == t[id].(meta := r[id].meta) &&
      r[id].meta.description == (if m.description != "" then m.description else t[id].meta.description) &&
      r[id].meta.release == (if m.release != "" then m.release else t[id].meta.release) &&
      r[id].meta.developer == (if m.developer != "" then m.developer else t[id].meta.developer) &&
      r[id].meta.publisher == (if m.publisher != "" then m.publisher else t[id].meta.publisher) &&
      r[id].meta.genre == (if m.genre != "" then m.genre else t[id].meta.genre) &&
      r[id].meta.rating == (if m.rating != "" then m.rating else t[id].meta.rating)
  {
    hide MergeMeta;
    if k < n - 1 {
      MetaExactly(t, sys, metas, n - 1, k, id);
    } else {
      OtherMetasKeep(t, sys, metas, n - 1, id);
      MergedFields(t[id].meta, metas[k].meta);
    }
  }

  lemma MergedFields(old': Meta, m: Meta)
    ensures var r := MergeMeta(old', m);
      r.description == (if m.description != "" then m.description else old'.description) &&
      r.release == (if m.release != "" then m.release else old'.release) &&
      r.developer == (if m.developer != "" then m.developer else old'.developer) &&
      r.publisher == (if m.publisher != "" then m.publisher else old'.publisher) &&
      r.genre == (if m.genre != "" then m.genre else old'.genre) &&
      r.rating == (if m.rating != "" then m.rating else old'.rating)
  {
  }

  lemma {:induction false} OtherMetasKeep(t: Table, sys: string, metas: seq<GameMeta>, n: nat, id: GameId)
    requires n <= |metas| && id in t && forall j :: 0 <= j < n ==> GameId(sys, metas[j].rel) != id
    ensures var r := MetaAll(t, sys, metas, n); r.Keys == t.Keys && r[id] == t[id]
  {
    hide MergeMeta;
    if n > 0 {
      OtherMetasKeep(t, sys, metas, n - 1, id);
    }
  }

  /** Enrichment never wipes: a non-empty field stays non-empty, whatever metas are applied. */
  lemma {:induction false} MetaNeverWipes(t: Table, sys: string, metas: seq<GameMeta>, n: nat, id: GameId)
    requires n <= |metas| && id in t
    ensures var r := MetaAll(t, sys, metas, n);
      r.Keys == t.Keys &&
      (t[id].meta.description != "" ==> r[id].meta.description != "") &&
      (t[id].meta.release != "" ==> r[id].meta.release != "") &&
      (t[id].meta.developer != "" ==> r[id].meta.developer != "") &&
      (t[id].meta.publisher != "" ==> r[id].meta.publisher != "") &&
      (t[id].meta.genre != "" ==> r[id].meta.genre != "") && (t[id].meta.rating != "" ==> r[id].meta.rating != "")
  {
    if n > 0 {
      MetaNeverWipes(t, sys, metas, n - 1, id);
    }
  }

  // ---------------------------------------------------------------- the store

  class GameStore {
    var games: Table

    constructor (games: Table)
      ensures this.games == games
    {
      this.games := games;
    }

    /**
     failAt: what fails, if anything: an upsert, the delete or the commit. The deferred
     rollback then undoes the transaction.
     */
    method ReplaceSystemGames(sys: string, scanned: seq<Scanned>, seen: Time, failAt: nat) returns (ok: bool)
      modifies this
      ensures ok == (failAt > |scanned| + 1)
      ensures games == if ok then Replace(old(games), sys, scanned, Stamp(seen)) else old(games)
    {
      var ts := Stamp(seen);
      var tx := games;
      for n := 0 to |scanned|
        invariant games == old(games) && n <= failAt
        invariant tx == UpsertAll(games, sys, scanned, ts, n)
      {
        if n == failAt {
          return false;
        }
        var g := scanned[n];
        var id := GameId(sys, g.rel);
        if id in tx {
          var row := tx[id];
          tx := tx[id := row.(size := g.size, lastSeen := ts, title := if g.title != "" then g.title else row.title)];
        } else {
          tx := tx[id := NewRow(g, ts)];
        }
      }
      if failAt == |scanned| {
        return false;
      }
      tx := map id | id in tx && !(id.sys == sys && Before(tx[id].lastSeen, ts)) :: tx[id];
      if failAt == |scanned| + 1 {
        return false;
      }
      games := tx;
      return true;
    }

    method SetSystemScrapeFlags(sys: string, flags: seq<Flags>)
      modifies this
      ensures games == FlagAll(old(games), sys, flags, |flags|)
    {
      var tx := map id | id in games :: if id.sys == sys then Flagged(games[id], false, false) else games[id];
      for n := 0 to |flags|
        invariant games == old(games) && tx == FlagAll(games, sys, flags, n)
      {
        var id := GameId(sys, flags[n].rel);
        if id in tx {
          tx := tx[id := tx[id].(hasDescription := flags[n].description, hasCover := flags[n].cover)];
        }
      }
      games := tx;
    }

    method SetGameMeta(sys: string, metas: seq<GameMeta>)
      modifies this
      ensures games == MetaAll(old(games), sys, metas, |metas|)
    {
      var tx := games;
      for n := 0 to |metas|
        invariant games == old(games) && tx == MetaAll(games, sys, metas, n)
      {
        var id := GameId(sys, metas[n].rel);
        if id in tx {
          tx := tx[id := tx[id].(meta := MergeMeta(tx[id].meta, metas[n].meta))];
        }
      }
      games := tx;
    }
  }
}
