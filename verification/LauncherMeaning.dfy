/**
 What a generated file says once it is parsed, in terms of the system, its games and the
 custom collections alone (renderSystem of pkgs/arcade-webapp/internal/generate/generate.go).
 */
module LauncherMeaning {
  import opened Options
  import opened Text
  import opened Lines
  import opened LauncherFile
  import opened LauncherLaws
  import opened RoundTrip
  import C = CustomViews
  import P = Pegasus

  function FieldOf(g: P.Game, key: string): string { if key in g.fields then g.fields[key] else "" }

  /** A parsed game is this entry: its title, file, metadata and artwork, each under its own name. */
  ghost predicate Is(g: P.Game, e: Entry) {
    g.title == GameTitle(e.meta.relPath) && g.file == Sanitize(e.meta.relPath) &&
    FieldOf(g, "description") == Sanitize(e.meta.description) && FieldOf(g, "release") == Sanitize(e.meta.release) &&
    FieldOf(g, "developer") == Sanitize(e.meta.developer) && FieldOf(g, "publisher") == Sanitize(e.meta.publisher) &&
    FieldOf(g, "genre") == Sanitize(e.meta.genre) && FieldOf(g, "rating") == Sanitize(e.meta.rating) &&
    HasAssets(g.assets, e.assets)
  }

  ghost predicate LastOfStem(assets: seq<Asset>, k: nat) {
    k < |assets| && forall j :: k < j < |assets| ==> assets[j].stem != assets[k].stem
  }

  /** The path of every asset under its stem, and nothing else; of several with one stem the last. */
  ghost predicate HasAssets(m: map<string, string>, assets: seq<Asset>) {
    (forall stem :: stem in m <==> exists k :: 0 <= k < |assets| && assets[k].stem == stem) &&
    forall k: nat :: LastOfStem(assets, k) && assets[k].stem in m ==> m[assets[k].stem] == assets[k].path
  }

  lemma {:induction false} AssetsAdded(m: map<string, string>, assets: seq<Asset>, stem: string)
    ensures var r := WithAssets(m, assets); var named := exists k :: 0 <= k < |assets| && assets[k].stem == stem;
      (stem in r <==> stem in m || named) && (stem in m && !named ==> r[stem] == m[stem]) &&
      forall k: nat :: LastOfStem(assets, k) && assets[k].stem == stem && stem in r ==> r[stem] == assets[k].path
    decreases |assets|
  {
    if assets != [] {
      var rest := assets[1..];
      AssetsAdded(m[assets[0].stem := assets[0].path], rest, stem);
      assert forall k :: 0 <= k < |rest| ==> rest[k] == assets[k + 1];
      forall k: nat | LastOfStem(assets, k) && k > 0
        ensures LastOfStem(rest, k - 1)
      {
      }
    }
  }

  lemma AssetsAre(assets: seq<Asset>)
    ensures HasAssets(WithAssets(map[], assets), assets)
  {
    forall stem
      ensures var r := WithAssets(map[], assets);
        (stem in r <==> exists k :: 0 <= k < |assets| && assets[k].stem == stem) &&
        forall k: nat :: LastOfStem(assets, k) && assets[k].stem == stem && stem in r ==> r[stem] == assets[k].path
    {
      AssetsAdded(map[], assets, stem);
    }
  }

  /** The parsed games are the entries at the positions idx, in order. */
  ghost predicate Shows(games: seq<P.Game>, es: seq<Entry>, idx: seq<nat>) {
    Increasing(idx) && |games| == |idx| && forall k :: 0 <= k < |idx| ==> idx[k] < |es| && Is(games[k], es[idx[k]])
  }

  lemma ParsedGameIs(e: Entry)
    ensures Is(ParsedGame(e), e)
  {
    hide Sanitize, GameTitle, WithAssets, HasAssets;
    FieldsAre(e.meta);
    AssetsAre(e.assets);
  }

  lemma FieldsAre(m: GameMeta)
    ensures var f := ParsedFields(m); var g := P.Game("", "", f, map[], map[]);
      FieldOf(g, "description") == Sanitize(m.description) && FieldOf(g, "release") == Sanitize(m.release) &&
      FieldOf(g, "developer") == Sanitize(m.developer) && FieldOf(g, "publisher") == Sanitize(m.publisher) &&
      FieldOf(g, "genre") == Sanitize(m.genre) && FieldOf(g, "rating") == Sanitize(m.rating)
  {
    hide Sanitize;
    assert "release"[0] == 'r' && "rating"[1] == 'a' && "release"[1] == 'e' && "genre"[0] == 'g';
    assert "description"[2] == 's' && "developer"[2] == 'v' && "publisher"[0] == 'p';
  }

  lemma {:induction false} ParsedGamesAre(picked: seq<Entry>)
    ensures |ParsedGames(picked)| == |picked|
    ensures forall k :: 0 <= k < |picked| ==> ParsedGames(picked)[k] == ParsedGame(picked[k])
  {
    hide ParsedGame;
    if picked != [] {
      ParsedGamesAre(picked[1..]);
    }
  }

  lemma SelectionShows(es: seq<Entry>, l: Listing) returns (idx: seq<nat>)
    ensures Shows(ParsedGames(Select(es, l)), es, idx)
    ensures l.Main? ==> forall i: nat :: i in idx <==> i < |es| && es[i].playable
    ensures l.Pending? ==> forall i: nat :: i in idx <==> i < |es| && !es[i].playable
    ensures l.Members? ==> forall i: nat :: i in idx <==> i < |es| && es[i].playable && es[i].meta.relPath in l.paths
  {
    hide Select, Is, ParsedGame, ParsedGames;
    idx := SelectExactly(es, l);
    var picked := Select(es, l);
    ParsedGamesAre(picked);
    forall k | 0 <= k < |idx|
      ensures Is(ParsedGames(picked)[k], es[idx[k]])
    {
      ParsedGameIs(picked[k]);
    }
  }

  /** retroarch with the core if there is one, else the emulator's own wrapper. */
  ghost predicate LaunchedBy(sys: System, launch: string) {
    if sys.core != "" && sys.core != "-" then launch == "jupiter-retroarch -L " + sys.core + " \"{file.path}\""
    else sys.emulator != "" && launch == "jupiter-" + sys.emulator + " \"{file.path}\""
  }

  /**
   A parsed clean file starts with the system's own collection, which lists exactly the
   playable games in order, and then has, if there is any other game, the pending collection
   with exactly those.
   */
  lemma MainAndPendingParsed(sys: System, es: seq<Entry>, customs: seq<CustomView>)
    returns (main: seq<nat>, pending: seq<nat>)
    requires LaunchCommand(sys).Some? && CleanInputs(sys, LaunchCommand(sys).value, es, customs)
    ensures P.ParseFile(Rendered(sys, es, customs).value).Ok?
    ensures var cs := P.ParseFile(Rendered(sys, es, customs).value).value.collections;
      |cs| > 0 && cs[0].title == Sanitize(sys.collection) && cs[0].shortname == sys.key &&
      LaunchedBy(sys, cs[0].launch) &&
      Shows(cs[0].games, es, main) && (forall i: nat :: i in main <==> i < |es| && es[i].playable) &&
      (pending != [] ==>
        |cs| > 1 && cs[1].shortname == sys.key + "-pending" && cs[1].summary == PENDING_SUMMARY && cs[1].launch == "" &&
        Shows(cs[1].games, es, pending))
    ensures forall i: nat :: i in pending <==> i < |es| && !es[i].playable
  {
    hide P.ParseFile, Rendered, CleanInputs, Select, ParsedGames, Sanitize, ParsedCustoms, Is;
    CleanSystemRoundTrips(sys, es, customs);
    main := SelectionShows(es, Main);
    pending := SelectionShows(es, Pending);
    ParsedGamesAre(Select(es, Pending));
  }

  /** A collection of the file is this custom collection's, with exactly its playable members in order. */
  ghost predicate IsCustom(p: P.Collection, c: C.CustomCollection, sys: System, es: seq<Entry>, idx: seq<nat>) {
    p.title == Sanitize(c.title) && p.shortname == c.shortname && p.summary == Sanitize(c.summary) &&
    LaunchedBy(sys, p.launch) && idx != [] && Shows(p.games, es, idx) &&
    forall i: nat :: i in idx <==> i < |es| && es[i].playable && C.Member(sys.key, es[i].meta.relPath) in c.members
  }

  ghost predicate HasPlayable(c: C.CustomCollection, sys: System, es: seq<Entry>) {
    exists i :: 0 <= i < |es| && es[i].playable && C.Member(sys.key, es[i].meta.relPath) in c.members
  }

  lemma {:induction false} ParsedCustomsHave(customs: seq<CustomView>, es: seq<Entry>, launch: string, v: CustomView)
    requires v in customs && ParsedCustom(v, es, launch) != []
    ensures ParsedCustom(v, es, launch)[0] in ParsedCustoms(customs, es, launch)
  {
    hide ParsedCustom;
    if v != customs[0] {
      ParsedCustomsHave(customs[1..], es, launch, v);
    }
  }

  lemma {:induction false} ParsedCustomsFrom(customs: seq<CustomView>, es: seq<Entry>, launch: string, p: P.Collection)
    returns (v: CustomView)
    requires p in ParsedCustoms(customs, es, launch)
    ensures v in customs && ParsedCustom(v, es, launch) == [p]
  {
    hide Select;
    if p in ParsedCustom(customs[0], es, launch) {
      v := customs[0];
    } else {
      v := ParsedCustomsFrom(customs[1..], es, launch, p);
    }
  }

  lemma ViewParsed(sys: System, es: seq<Entry>, v: CustomView, c: C.CustomCollection) returns (idx: seq<nat>)
    requires LaunchCommand(sys).Some?
    requires v.title == c.title && v.shortname == c.shortname && v.summary == c.summary
    requires forall rel :: rel in v.members <==> C.Member(sys.key, rel) in c.members
    ensures var parsed := ParsedCustom(v, es, LaunchCommand(sys).value);
      (parsed != [] <==> HasPlayable(c, sys, es)) &&
      (parsed != [] ==> IsCustom(parsed[0], c, sys, es, idx))
  {
    hide Select, ParsedGames, Sanitize, Is;
    idx := SelectionShows(es, Members(v.members));
    ParsedGamesAre(Select(es, Members(v.members)));
    if idx != [] {
      assert idx[0] in idx;
    }
    if HasPlayable(c, sys, es) {
      var i: nat :| i < |es| && es[i].playable && C.Member(sys.key, es[i].meta.relPath) in c.members;
      assert i in idx;
    }
  }

  ghost predicate Projected(colls: seq<C.CustomCollection>, sys: string, customs: seq<CustomView>) {
    C.IsSortedView(customs, C.ViewsFor(colls, sys))
  }

  lemma SortedHas(customs: seq<CustomView>, views: seq<CustomView>, v: CustomView)
    requires C.IsSortedView(customs, views)
    ensures v in customs <==> v in views
  {
    assert v in multiset(customs) <==> v in multiset(views);
  }

  /** Every custom collection with a playable member here has its collection in the parsed file. */
  lemma CustomIsParsed(sys: System, es: seq<Entry>, colls: seq<C.CustomCollection>, customs: seq<CustomView>,
                       c: C.CustomCollection)
    returns (p: P.Collection, idx: seq<nat>)
    requires LaunchCommand(sys).Some? && CleanInputs(sys, LaunchCommand(sys).value, es, customs)
    requires Projected(colls, sys.key, customs) && c in colls && HasPlayable(c, sys, es)
    ensures P.ParseFile(Rendered(sys, es, customs).value).Ok?
    ensures p in P.ParseFile(Rendered(sys, es, customs).value).value.collections && IsCustom(p, c, sys, es, idx)
  {
    hide P.ParseFile, Rendered, CleanInputs, ParsedCustom, ParsedPending, ParsedMain, IsCustom;
    var launch := LaunchCommand(sys).value;
    CleanSystemRoundTrips(sys, es, customs);
    var v := C.ViewOf(c, sys.key);
    assert forall rel :: rel in v.members <==> C.Member(sys.key, rel) in c.members;
    C.ViewsForExactly(colls, sys.key, v);
    SortedHas(customs, C.ViewsFor(colls, sys.key), v);
    idx := ViewParsed(sys, es, v, c);
    ParsedCustomsHave(customs, es, launch, v);
    p := ParsedCustom(v, es, launch)[0];
  }

  /** How many collections come before the custom ones. */
  ghost function OwnCollections(es: seq<Entry>): nat {
    if exists i :: 0 <= i < |es| && !es[i].playable then 2 else 1
  }

  lemma CustomsFollow(sys: System, launch: string, es: seq<Entry>, customs: seq<CustomView>, j: nat)
    requires OwnCollections(es) <= j < |ParsedSystem(sys, launch, es, customs).collections|
    ensures ParsedSystem(sys, launch, es, customs).collections[j] in ParsedCustoms(customs, es, launch)
  {
    hide Select, ParsedGames, ParsedCustoms, Sanitize;
    var pending := SelectExactly(es, Pending);
    if Select(es, Pending) != [] {
      assert pending[0] in pending;
    }
  }

  lemma ViewOfSome(colls: seq<C.CustomCollection>, sys: string, v: CustomView) returns (c: C.CustomCollection)
    requires v in C.ViewsFor(colls, sys)
    ensures c in colls && v.title == c.title && v.shortname == c.shortname && v.summary == c.summary
    ensures forall rel :: rel in v.members <==> C.Member(sys, rel) in c.members
  {
    C.ViewsForExactly(colls, sys, v);
    c :| c in colls && v.title == c.title && v.shortname == c.shortname && v.summary == c.summary &&
      (forall rel :: rel in v.members <==> C.Member(sys, rel) in c.members);
  }

  /** Every other collection of the parsed file is some custom collection's. */
  lemma ParsedIsCustom(sys: System, es: seq<Entry>, colls: seq<C.CustomCollection>, customs: seq<CustomView>, j: nat)
    returns (c: C.CustomCollection, idx: seq<nat>)
    requires LaunchCommand(sys).Some? && CleanInputs(sys, LaunchCommand(sys).value, es, customs)
    requires Projected(colls, sys.key, customs)
    requires P.ParseFile(Rendered(sys, es, customs).value).Ok?
    requires OwnCollections(es) <= j < |P.ParseFile(Rendered(sys, es, customs).value).value.collections|
    ensures c in colls && HasPlayable(c, sys, es)
    ensures IsCustom(P.ParseFile(Rendered(sys, es, customs).value).value.collections[j], c, sys, es, idx)
  {
    hide P.ParseFile, Rendered, CleanInputs, ParsedCustom, ParsedSystem, IsCustom, OwnCollections, HasPlayable;
    hide C.IsSortedView;
    var launch := LaunchCommand(sys).value;
    CleanSystemRoundTrips(sys, es, customs);
    CustomsFollow(sys, launch, es, customs, j);
    var p := ParsedSystem(sys, launch, es, customs).collections[j];
    var v := ParsedCustomsFrom(customs, es, launch, p);
    SortedHas(customs, C.ViewsFor(colls, sys.key), v);
    c := ViewOfSome(colls, sys.key, v);
    idx := ViewParsed(sys, es, v, c);
  }
}
