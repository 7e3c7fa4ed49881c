module CacheEngine {
  // The scrape cache engine and the checksum fill of the scanner (applyCache with its
  // three wrappers and persistSHA1s of pkgs/arcade-webapp internal/scanner/scanner.go).
  // The parsed cache and the keys of the game files are given; a key that cannot be
  // computed (file too large or unreadable) is None.

  import opened Options
  import opened Text
  import opened Lines
  import opened LauncherFile
  import opened GameTable

  type Key = string

  /** ReadCacheCoverage's result. */
  datatype Cache = Cache(entries: nat, descriptions: set<Key>, covers: set<Key>, texts: map<Key, string>)

  const MAX_DESCRIPTION := 4000

  /** The files below the system's directory: each path's cache key. */
  type Keys = string -> Option<Key>

  function Clip(text: string): string {
    var t := TrimSpace(text);
    if |t| > MAX_DESCRIPTION then t[..MAX_DESCRIPTION] else t
  }

  function OnlyDescription(text: string): Meta { NO_META.(description := text) }

  function FlagsOf(cache: Cache, keys: Keys, rel: string): seq<Flags> {
    match keys(rel)
    case None => []
    case Some(id) =>
      if id in cache.descriptions || id in cache.covers
        then [Flags(rel, id in cache.descriptions, id in cache.covers)] else []
  }

  function MetasOf(cache: Cache, keys: Keys, rel: string): seq<GameTable.GameMeta> {
    match keys(rel)
    case None => []
    case Some(id) => if id in cache.texts then [GameTable.GameMeta(rel, OnlyDescription(Clip(cache.texts[id])))] else []
  }

  function FlagsFor(cache: Cache, keys: Keys, listing: seq<string>): seq<Flags> {
    if listing == [] then []
    else FlagsFor(cache, keys, listing[..|listing| - 1]) + FlagsOf(cache, keys, listing[|listing| - 1])
  }

  function MetasFor(cache: Cache, keys: Keys, listing: seq<string>): seq<GameTable.GameMeta> {
    if listing == [] then []
    else MetasFor(cache, keys, listing[..|listing| - 1]) + MetasOf(cache, keys, listing[|listing| - 1])
  }

  lemma {:induction false} NothingToFlag(cache: Cache, keys: Keys, listing: seq<string>)
    requires cache.descriptions == {} && cache.covers == {}
    ensures FlagsFor(cache, keys, listing) == []
  {
    if listing != [] {
      NothingToFlag(cache, keys, listing[..|listing| - 1]);
    }
  }

  lemma {:induction false} NothingToEnrich(cache: Cache, keys: Keys, listing: seq<string>)
    requires cache.texts == map[]
    ensures MetasFor(cache, keys, listing) == []
  {
    if listing != [] {
      NothingToEnrich(cache, keys, listing[..|listing| - 1]);
    }
  }

  // ---------------------------------------------------------------- applyCache

  /** Which store calls fail, if any. */
  datatype Faults = Faults(coverage: bool, list: bool, flags: bool, metas: bool)

  const NO_FAULTS := Faults(false, false, false, false)

  datatype Outcome = Outcome(enriched: nat, covErr: bool, enrichErr: bool)

  /** There is something in the cache to look the games up for. */
  predicate Hashes(cache: Cache, doFlags: bool, doEnrich: bool) {
    (doFlags && (cache.descriptions != {} || cache.covers != {})) || (doEnrich && cache.texts != map[])
  }

  class Engine {
    const sys: string
    const keys: Keys
    var games: Table
    var coverage: Option<nat>
    ghost var hashed: seq<string> // paths hashed so far, in order

    constructor (sys: string, keys: Keys, games: Table, coverage: Option<nat>)
      ensures this.sys == sys && this.keys == keys && this.games == games && this.coverage == coverage && hashed == []
    {
      this.sys, this.keys, this.games, this.coverage, this.hashed := sys, keys, games, coverage, [];
    }

    /** CacheID. */
    method CacheId(rel: string) returns (id: Option<Key>)
      modifies this`hashed
      ensures id == keys(rel) && hashed == old(hashed) + [rel]
    {
      id := keys(rel);
      hashed := hashed + [rel];
    }

    /** The loop of applyCache. */
    method HashListing(cache: Cache, listing: seq<string>, forFlags: bool, forMetas: bool)
      returns (flags: seq<Flags>, metas: seq<GameTable.GameMeta>)
      modifies this`hashed
      ensures flags == if forFlags then FlagsFor(cache, keys, listing) else []
      ensures metas == if forMetas then MetasFor(cache, keys, listing) else []
      ensures hashed == old(hashed) + listing
    {
      hide TrimSpace;
      flags, metas := [], [];
      for n := 0 to |listing|
        invariant flags == if forFlags then FlagsFor(cache, keys, listing[..n]) else []
        invariant metas == if forMetas then MetasFor(cache, keys, listing[..n]) else []
        invariant hashed == old(hashed) + listing[..n]
      {
        assert listing[..n + 1][..n] == listing[..n] && listing[..n + 1][n] == listing[n];
        var rel := listing[n];
        var id := CacheId(rel);
        assert hashed == old(hashed) + listing[..n + 1];
        if id.None? {
          continue;
        }
        if forFlags {
          var desc, cover := id.value in cache.descriptions, id.value in cache.covers;
          if desc || cover {
            flags := flags + [Flags(rel, desc, cover)];
          }
        }
        if forMetas && id.value in cache.texts {
          metas := metas + [GameTable.GameMeta(rel, OnlyDescription(Clip(cache.texts[id.value])))];
        }
      }
      assert listing[..|listing|] == listing;
    }

    /** listing: ListGames' answer for the system. cache: None when db.xml does not parse. */
    method ApplyCache(cache: Option<Cache>, listing: seq<string>, doFlags: bool, doEnrich: bool, faults: Faults)
      returns (r: Outcome)
      modifies this
      ensures cache.None? ==>
        games == old(games) && coverage == old(coverage) && hashed == old(hashed) && r == Outcome(0, doFlags, doEnrich)
      ensures cache.Some? ==>
        var c := cache.value; var enrich := doEnrich && c.texts != map[]; var metas := MetasFor(c, keys, listing);
        var flagged := if doFlags && !faults.list && !faults.flags
                       then FlagAll(old(games), sys, FlagsFor(c, keys, listing), |FlagsFor(c, keys, listing)|)
                         else old(games);
        var written := enrich && !faults.list && !faults.metas;
        games == (if written then MetaAll(flagged, sys, metas, |metas|) else flagged) &&
        coverage == (if doFlags && !faults.coverage then Some(c.entries) else old(coverage)) &&
        r.enriched == (if written then |metas| else 0) &&
        r.covErr == (doFlags && (faults.coverage || faults.list || faults.flags)) &&
        r.enrichErr == (doEnrich && if faults.list then doFlags || c.texts != map[] else metas != [] && faults.metas)
      ensures cache.Some? ==>
        hashed == old(hashed) + if Hashes(cache.value, doFlags, doEnrich) && !faults.list then listing else []
    {
      hide TrimSpace, FlagsOf, MetasOf;
      r := Outcome(0, false, false);
      if cache.None? {
        return Outcome(0, doFlags, doEnrich);
      }
      var c := cache.value;
      if doFlags {
        if faults.coverage {
          r := r.(covErr := true);
        } else {
          coverage := Some(c.entries);
        }
      }
      NothingToEnrichWithoutTexts(c, keys, listing);
      if !doFlags && !(doEnrich && c.texts != map[]) {
        return;
      }
      if faults.list {
        r := r.(covErr := r.covErr || doFlags, enrichErr := r.enrichErr || doEnrich);
        return;
      }
      var earlyClear := doFlags && ((c.descriptions == {} && c.covers == {}) || listing == []);
      var flagsNeedHash := doFlags && !earlyClear;
      var enrichNeedHash := doEnrich && c.texts != map[];
      var flags: seq<Flags>, metas: seq<GameTable.GameMeta> := [], [];
      if flagsNeedHash || enrichNeedHash {
        flags, metas := HashListing(c, listing, flagsNeedHash, enrichNeedHash);
      }
      if earlyClear && listing != [] {
        NothingToFlag(c, keys, listing);
      }
      if doFlags {
        if faults.flags {
          r := r.(covErr := true);
        } else {
          games := FlagAll(games, sys, flags, |flags|);
        }
      }
      if enrichNeedHash && metas != [] {
        if faults.metas {
          r := r.(enrichErr := true);
          return;
        }
        games := MetaAll(games, sys, metas, |metas|);
        r := r.(enriched := |metas|);
      }
    }

    method ApplyCacheFlags(cache: Option<Cache>, listing: seq<string>, faults: Faults) returns (covErr: bool)
      modifies this
      ensures cache.Some? && faults == NO_FAULTS ==>
        games == FlaggedBy(old(games), sys, keys, cache.value, listing) && coverage == Some(cache.value.entries) &&
        !covErr
      ensures cache.None? ==> games == old(games) && coverage == old(coverage) && covErr
      ensures cache.Some? ==> covErr == (faults.coverage || faults.list || faults.flags)
      ensures hashed == old(hashed) || hashed == old(hashed) + listing
    {
      var r := ApplyCache(cache, listing, true, false, faults);
      return r.covErr;
    }

    method ApplyCacheEnrichment(cache: Option<Cache>, listing: seq<string>, faults: Faults)
      returns (enriched: nat, enrichErr: bool)
      modifies this
      ensures cache.Some? && faults == NO_FAULTS ==>
        games == EnrichedBy(old(games), sys, keys, cache.value, listing) && coverage == old(coverage) && !enrichErr &&
        enriched == |MetasFor(cache.value, keys, listing)|
      ensures cache.None? ==> games == old(games) && coverage == old(coverage) && enrichErr && enriched == 0
      ensures hashed == old(hashed) || hashed == old(hashed) + listing
    {
      if cache.Some? {
        NothingToEnrichWithoutTexts(cache.value, keys, listing);
      }
      var r := ApplyCache(cache, listing, false, true, faults);
      return r.enriched, r.enrichErr;
    }

    /** The combined form: the same result with every game hashed at most once. */
    method ApplyCacheBoth(cache: Option<Cache>, listing: seq<string>, faults: Faults) returns (r: Outcome)
      modifies this
      ensures cache.Some? && faults == NO_FAULTS ==>
        games == EnrichedBy(FlaggedBy(old(games), sys, keys, cache.value, listing), sys, keys, cache.value, listing) &&
        coverage == Some(cache.value.entries) && r == Outcome(|MetasFor(cache.value, keys, listing)|, false, false)
      ensures cache.None? ==> games == old(games) && coverage == old(coverage) && r == Outcome(0, true, true)
      ensures hashed == old(hashed) || hashed == old(hashed) + listing
    {
      if cache.Some? {
        NothingToEnrichWithoutTexts(cache.value, keys, listing);
      }
      r := ApplyCache(cache, listing, true, true, faults);
    }
  }

  lemma NothingToEnrichWithoutTexts(cache: Cache, keys: Keys, listing: seq<string>)
    ensures cache.texts == map[] ==> MetasFor(cache, keys, listing) == []
  {
    if cache.texts == map[] {
      NothingToEnrich(cache, keys, listing);
    }
  }

  function FlaggedBy(t: Table, sys: string, keys: Keys, cache: Cache, listing: seq<string>): Table {
    var flags := FlagsFor(cache, keys, listing);
    FlagAll(t, sys, flags, |flags|)
  }

  function EnrichedBy(t: Table, sys: string, keys: Keys, cache: Cache, listing: seq<string>): Table {
    var metas := MetasFor(cache, keys, listing);
    MetaAll(t, sys, metas, |metas|)
  }

  /** Runs the combined form on one copy of the state and the two single forms on another. */
  method CompareForms(both: Engine, apart: Engine, cache: Cache, listing: seq<string>)
    returns (together: nat, separately: nat)
    requires both != apart && both.sys == apart.sys && both.keys == apart.keys && both.games == apart.games &&
      both.coverage == apart.coverage
    requires both.hashed == [] && apart.hashed == []
    modifies both, apart
    ensures both.games == apart.games && both.coverage == apart.coverage && together == separately
    ensures both.hashed == [] || both.hashed == listing
  {
    var r := both.ApplyCacheBoth(Some(cache), listing, NO_FAULTS);
    var _ := apart.ApplyCacheFlags(Some(cache), listing, NO_FAULTS);
    var n, _ := apart.ApplyCacheEnrichment(Some(cache), listing, NO_FAULTS);
    together, separately := r.enriched, n;
  }

  // ---------------------------------------------------------------- what a refresh means for one game

  /** The listing names exactly the system's games, each once. */
  ghost predicate ListsGames(t: Table, sys: string, listing: seq<string>) {
    Distinct(listing) && forall rel :: rel in listing <==> GameId(sys, rel) in t
  }

  ghost predicate Has(cache: Cache, keys: Keys, rel: string, ids: set<Key>) {
    keys(rel).Some? && keys(rel).value in ids
  }

  lemma {:induction false} FlagsForHas(cache: Cache, keys: Keys, listing: seq<string>, f: Flags)
    ensures f in FlagsFor(cache, keys, listing) <==> f.rel in listing && f in FlagsOf(cache, keys, f.rel)
  {
    if listing != [] {
      var rest, last := listing[..|listing| - 1], listing[|listing| - 1];
      FlagsForHas(cache, keys, rest, f);
      assert listing == rest + [last];
    }
  }

  /** With distinct flags for a path, the last write is the only one. */
  lemma {:induction false} FlagAllRow(t: Table, sys: string, flags: seq<Flags>, n: nat, id: GameId, want: Flags)
    requires n <= |flags| && id in t && id.sys == sys && want.rel == id.rel
    requires forall k :: 0 <= k < n && flags[k].rel == id.rel ==> flags[k] == want
    ensures var r := FlagAll(t, sys, flags, n);
      id in r && r[id] == if exists k :: 0 <= k < n && flags[k].rel == id.rel
                          then Flagged(t[id], want.description, want.cover)
                          else Flagged(t[id], false, false)
  {
    if n > 0 {
      FlagAllRow(t, sys, flags, n - 1, id, want);
      if flags[n - 1].rel == id.rel {
        assert flags[n - 1] == want;
      }
    }
  }

  /** After a refresh a game's flags say exactly whether its key has a description or a cover in the cache. */
  lemma FlagsAreExact(t: Table, sys: string, keys: Keys, cache: Cache, listing: seq<string>, rel: string)
    requires ListsGames(t, sys, listing) && GameId(sys, rel) in t
    ensures var r := FlaggedBy(t, sys, keys, cache, listing);
      GameId(sys, rel) in r && SameButFlags(r[GameId(sys, rel)], t[GameId(sys, rel)]) &&
      r[GameId(sys, rel)].hasDescription == Has(cache, keys, rel, cache.descriptions) &&
      r[GameId(sys, rel)].hasCover == Has(cache, keys, rel, cache.covers)
  {
    var flags := FlagsFor(cache, keys, listing);
    var want := Flags(rel, Has(cache, keys, rel, cache.descriptions), Has(cache, keys, rel, cache.covers));
    forall k | 0 <= k < |flags| && flags[k].rel == rel
      ensures flags[k] == want
    {
      FlagsForHas(cache, keys, listing, flags[k]);
    }
    FlagsForHas(cache, keys, listing, want);
    if want.description || want.cover {
      assert want in flags;
      var k :| 0 <= k < |flags| && flags[k] == want;
    }
    FlagAllRow(t, sys, flags, |flags|, GameId(sys, rel), want);
  }

  lemma {:induction false} MetasForHas(cache: Cache, keys: Keys, listing: seq<string>, m: GameTable.GameMeta)
    ensures m in MetasFor(cache, keys, listing) <==> m.rel in listing && m in MetasOf(cache, keys, m.rel)
  {
    hide Clip;
    if listing != [] {
      var rest, last := listing[..|listing| - 1], listing[|listing| - 1];
      MetasForHas(cache, keys, rest, m);
      assert listing == rest + [last];
    }
  }

  lemma {:induction false} MetaAllRow(t: Table, sys: string, metas: seq<GameTable.GameMeta>, n: nat, id: GameId,
                                      want: GameTable.GameMeta)
    requires n <= |metas| && id in t && id.sys == sys && want.rel == id.rel
    requires forall k :: 0 <= k < n && metas[k].rel == id.rel ==> metas[k] == want
    ensures var r := MetaAll(t, sys, metas, n);
      id in r && r[id] == if exists k :: 0 <= k < n && metas[k].rel == id.rel
                          then t[id].(meta := MergeMeta(t[id].meta, want.meta)) else t[id]
  {
    if n > 0 {
      MetaAllRow(t, sys, metas, n - 1, id, want);
      if metas[n - 1].rel == id.rel {
        assert metas[n - 1] == want;
      }
    }
  }

  /**
   After an ingest a game holds its cached description, trimmed and bounded; every other
   field and game is as before.
   */
  lemma DescriptionsAreExact(t: Table, sys: string, keys: Keys, cache: Cache, listing: seq<string>, rel: string)
    requires ListsGames(t, sys, listing) && GameId(sys, rel) in t
    ensures var r := EnrichedBy(t, sys, keys, cache, listing); var row := t[GameId(sys, rel)];
      GameId(sys, rel) in r && r[GameId(sys, rel)] ==
        if keys(rel).Some? && keys(rel).value in cache.texts && Clip(cache.texts[keys(rel).value]) != ""
        then row.(meta := row.meta.(description := Clip(cache.texts[keys(rel).value]))) else row
  {
    hide Clip;
    var metas := MetasFor(cache, keys, listing);
    var text := if keys(rel).Some? && keys(rel).value in cache.texts then Clip(cache.texts[keys(rel).value]) else "";
    var want := GameTable.GameMeta(rel, OnlyDescription(text));
    forall k | 0 <= k < |metas| && metas[k].rel == rel
      ensures metas[k] == want
    {
      MetasForHas(cache, keys, listing, metas[k]);
    }
    MetasForHas(cache, keys, listing, want);
    if keys(rel).Some? && keys(rel).value in cache.texts {
      assert want in metas;
      var k :| 0 <= k < |metas| && metas[k] == want;
    }
    MetaAllRow(t, sys, metas, |metas|, GameId(sys, rel), want);
  }

  /** A cached text is kept up to the bound, without the whitespace around it. */
  lemma ClipExactly(before: string, text: string, after: string)
    requires (forall c :: c in before + after ==> IsSpace(c)) && Trimmed(text) && text != ""
    ensures Clip(before + text + after) == if |text| <= 4000 then text else text[..4000]
  {
    assert forall c :: c in before ==> c in before + after;
    assert forall c :: c in after ==> c in before + after;
    assert before + text + after == before + (text + after);
    TrimLeftPadding(before, text + after);
    TrimRightPadding(text, after);
  }

  /** The cache has a usable text for the game that it does not hold yet. */
  predicate HasNews(cache: Cache, keys: Keys, rel: string, row: GameTable.Row) {
    keys(rel).Some? && keys(rel).value in cache.texts && Clip(cache.texts[keys(rel).value]) != "" &&
    Clip(cache.texts[keys(rel).value]) != row.meta.description
  }

  ghost predicate HiddenKept(t: Table, r: Table, sys: string) {
    forall rel :: GameId(sys, rel) in t && t[GameId(sys, rel)].hidden ==>
      GameId(sys, rel) in r && r[GameId(sys, rel)] == t[GameId(sys, rel)]
  }

  /** An ingest leaves the hidden games alone exactly when the cache has no news for any of them. */
  lemma HiddenKeptExactly(t: Table, sys: string, keys: Keys, cache: Cache, listing: seq<string>)
    requires ListsGames(t, sys, listing)
    ensures HiddenKept(t, EnrichedBy(t, sys, keys, cache, listing), sys) <==>
      forall rel :: GameId(sys, rel) in t && t[GameId(sys, rel)].hidden ==>
        !HasNews(cache, keys, rel, t[GameId(sys, rel)])
  {
    hide Clip, EnrichedBy;
    var r := EnrichedBy(t, sys, keys, cache, listing);
    forall rel | GameId(sys, rel) in t
      ensures GameId(sys, rel) in r
      ensures r[GameId(sys, rel)] == t[GameId(sys, rel)] <==> !HasNews(cache, keys, rel, t[GameId(sys, rel)])
    {
      DescriptionsAreExact(t, sys, keys, cache, listing, rel);
    }
  }

  const HIDDEN_ROW := GameTable.Row(1, "", "", "", true, "", false, false, "", NO_META)

  /** One hidden game with a cached text is enough. */
  lemma HiddenGameExample()
    ensures var t := map[GameId("nes", "a.nes") := HIDDEN_ROW];
      var cache := Cache(1, {"k"}, {}, map["k" := "x"]);
      !HiddenKept(t, EnrichedBy(t, "nes", rel => Some("k"), cache, ["a.nes"]), "nes")
  {
    hide EnrichedBy, Clip;
    var id := GameId("nes", "a.nes");
    var t := map[id := HIDDEN_ROW];
    var cache := Cache(1, {"k"}, {}, map["k" := "x"]);
    ClipOne();
    assert ListsGames(t, "nes", ["a.nes"]);
    assert HasNews(cache, rel => Some("k"), "a.nes", t[id]);
    HiddenKeptExactly(t, "nes", rel => Some("k"), cache, ["a.nes"]);
  }

  lemma ClipOne()
    ensures Clip("x") == "x"
  {
  }

  // ---------------------------------------------------------------- persistSHA1s

  const FLUSH_BATCH := 32

  datatype Checksum = Checksum(rel: string, sha1: string)

  function Checksummed(t: Table, sys: string, cks: seq<Checksum>, n: nat): Table
    requires n <= |cks|
  {
    if n == 0 then t
    else
      var before, c := Checksummed(t, sys, cks, n - 1), cks[n - 1];
      var id := GameId(sys, c.rel);
      if id in before then before[id := before[id].(sha1 := Selected(c.sha1, before[id].sha1))] else before
  }

  /** The checksums of the missing paths that can be hashed, in order. */
  function Hashable(keys: Keys, missing: seq<string>): seq<Checksum> {
    if missing == [] then []
    else
      var last := missing[|missing| - 1];
      Hashable(keys, missing[..|missing| - 1]) + if keys(last).Some? then [Checksum(last, keys(last).value)] else []
  }

  lemma {:induction false} ChecksummedAppend(t: Table, sys: string, a: seq<Checksum>, b: seq<Checksum>, n: nat)
    requires n <= |b|
    ensures Checksummed(t, sys, a + b, |a| + n) == Checksummed(Checksummed(t, sys, a, |a|), sys, b, n)
  {
    if n == 0 {
      ChecksummedPrefix(t, sys, a, a + b, |a|);
    } else {
      ChecksummedAppend(t, sys, a, b, n - 1);
      assert (a + b)[|a| + n - 1] == b[n - 1];
    }
  }

  lemma {:induction false} ChecksummedPrefix(t: Table, sys: string, a: seq<Checksum>, b: seq<Checksum>, n: nat)
    requires n <= |a| && a <= b
    ensures Checksummed(t, sys, a, n) == Checksummed(t, sys, b, n)
  {
    if n > 0 {
      ChecksummedPrefix(t, sys, a, b, n - 1);
    }
  }

  /** A complete fill gives exactly the listed games with a key that key as their checksum. */
  lemma {:induction false} ChecksumsExactly(t: Table, sys: string, keys: Keys, missing: seq<string>, rel: string)
    requires GameId(sys, rel) in t
    ensures var r := Checksummed(t, sys, Hashable(keys, missing), |Hashable(keys, missing)|);
      var id := GameId(sys, rel);
      id in r && r[id] == t[id].(sha1 := r[id].sha1) &&
      r[id].sha1 == if rel in missing && keys(rel).Some? && keys(rel).value != "" then keys(rel).value else t[id].sha1
  {
    if missing != [] {
      var rest, last := missing[..|missing| - 1], missing[|missing| - 1];
      assert missing == rest + [last];
      ChecksumsExactly(t, sys, keys, rest, rel);
      var before, after := Hashable(keys, rest), Hashable(keys, missing);
      if keys(last).Some? {
        assert after == before + [Checksum(last, keys(last).value)];
        ChecksummedPrefix(t, sys, before, after, |before|);
      } else {
        assert after == before + [] == before;
      }
    }
  }

  /** The first hashed checksums are in the table, the others are pending. */
  ghost predicate Filling(t0: Table, sys: string, all: seq<Checksum>, t: Table, hashed: nat, pending: seq<Checksum>) {
    hashed + |pending| == |all| && pending == all[hashed..] && t == Checksummed(t0, sys, all, hashed)
  }

  lemma FillingGrows(t0: Table, sys: string, all: seq<Checksum>, t: Table, hashed: nat, pending: seq<Checksum>,
                     c: Checksum)
    requires Filling(t0, sys, all, t, hashed, pending)
    ensures Filling(t0, sys, all + [c], t, hashed, pending + [c])
  {
    ChecksummedPrefix(t0, sys, all, all + [c], hashed);
  }

  lemma FlushStores(t0: Table, sys: string, all: seq<Checksum>, t: Table, hashed: nat, pending: seq<Checksum>)
    requires Filling(t0, sys, all, t, hashed, pending)
    ensures Filling(t0, sys, all, Checksummed(t, sys, pending, |pending|), hashed + |pending|, [])
  {
    assert all == all[..hashed] + pending;
    ChecksummedPrefix(t0, sys, all[..hashed], all, hashed);
    ChecksummedAppend(t0, sys, all[..hashed], pending, |pending|);
  }

  /** Whatever else is still to be hashed, what the table holds is a prefix of all of it. */
  lemma FilledIsPrefix(t0: Table, sys: string, keys: Keys, missing: seq<string>, n: nat, t: Table, hashed: nat,
                       pending: seq<Checksum>)
    requires n <= |missing| && Filling(t0, sys, Hashable(keys, missing[..n]), t, hashed, pending)
    ensures hashed + |pending| <= |Hashable(keys, missing)|
    ensures t == Checksummed(t0, sys, Hashable(keys, missing), hashed)
  {
    HashableGrows(keys, missing, n);
    ChecksummedPrefix(t0, sys, Hashable(keys, missing[..n]), Hashable(keys, missing), hashed);
  }

  lemma NothingHashed(t0: Table, sys: string, keys: Keys, missing: seq<string>)
    ensures Filling(t0, sys, Hashable(keys, missing[..0]), t0, 0, [])
  {
  }

  lemma AllHashed(t0: Table, sys: string, keys: Keys, missing: seq<string>, t: Table, hashed: nat)
    requires Filling(t0, sys, Hashable(keys, missing[..|missing|]), t, hashed, [])
    ensures hashed == |Hashable(keys, missing)| && t == Checksummed(t0, sys, Hashable(keys, missing), hashed)
  {
    assert missing[..|missing|] == missing;
  }

  lemma OneMoreHashable(keys: Keys, missing: seq<string>, n: nat)
    requires n < |missing|
    ensures var before := Hashable(keys, missing[..n]);
      Hashable(keys, missing[..n + 1]) ==
        if keys(missing[n]).Some? then before + [Checksum(missing[n], keys(missing[n]).value)] else before
  {
    assert missing[..n + 1][..n] == missing[..n] && missing[..n + 1][n] == missing[n];
  }

  /**
   Fills the missing checksums, flushing in bounded batches. flushes: how many batches
   the store takes before it rejects one. What was stored is always a prefix of what
   could be hashed; an aborted fill keeps exactly the batches that were taken.
   */
  method PersistSha1s(t0: Table, sys: string, missing: seq<string>, keys: Keys, flushes: nat)
    returns (t: Table, hashed: nat, skipped: nat, aborted: bool)
    ensures hashed <= |Hashable(keys, missing)| && t == Checksummed(t0, sys, Hashable(keys, missing), hashed)
    ensures !aborted ==> hashed == |Hashable(keys, missing)| && hashed + skipped == |missing|
    ensures aborted ==> hashed == flushes * FLUSH_BATCH
    ensures aborted <==> flushes * FLUSH_BATCH < |Hashable(keys, missing)|
  {
    hide Hashable, Checksummed, Filling;
    t, hashed, skipped, aborted := t0, 0, 0, false;
    var cks: seq<Checksum> := [];
    var left := flushes;
    NothingHashed(t0, sys, keys, missing);
    for n := 0 to |missing|
      invariant Filling(t0, sys, Hashable(keys, missing[..n]), t, hashed, cks)
      invariant |cks| < FLUSH_BATCH && hashed == 32 * (flushes - left) && 0 <= left <= flushes
      invariant hashed + |cks| + skipped == n
    {
      OneMoreHashable(keys, missing, n);
      var id := keys(missing[n]);
      if id.None? {
        skipped := skipped + 1;
        continue;
      }
      FillingGrows(t0, sys, Hashable(keys, missing[..n]), t, hashed, cks, Checksum(missing[n], id.value));
      cks := cks + [Checksum(missing[n], id.value)];
      if |cks| >= FLUSH_BATCH {
        if left == 0 {
          FilledIsPrefix(t0, sys, keys, missing, n + 1, t, hashed, cks);
          return t, hashed, skipped, true;
        }
        left := left - 1;
        FlushStores(t0, sys, Hashable(keys, missing[..n + 1]), t, hashed, cks);
        t := Checksummed(t, sys, cks, |cks|);
        hashed := hashed + |cks|;
        cks := [];
      }
    }
    assert hashed + 32 * left == 32 * flushes;
    if cks != [] {
      if left == 0 {
        FilledIsPrefix(t0, sys, keys, missing, |missing|, t, hashed, cks);
        return t, hashed, skipped, true;
      }
      FlushStores(t0, sys, Hashable(keys, missing[..|missing|]), t, hashed, cks);
      t := Checksummed(t, sys, cks, |cks|);
      hashed := hashed + |cks|;
    }
    AllHashed(t0, sys, keys, missing, t, hashed);
  }

  lemma {:induction false} HashableGrows(keys: Keys, missing: seq<string>, n: nat)
    requires n <= |missing|
    ensures Hashable(keys, missing[..n]) <= Hashable(keys, missing)
    decreases |missing| - n
  {
    if n == |missing| {
      assert missing[..n] == missing;
    } else {
      OneMoreHashable(keys, missing, n);
      HashableGrows(keys, missing, n + 1);
    }
  }
}
