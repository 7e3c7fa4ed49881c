/**
 The laws of the launcher file: when parsing a rendered file gives back what was
 rendered, and when the validator accepts it.
 */
module LauncherLaws {
  import opened Text
  import opened Lines
  import opened LauncherFile
  import opened LauncherLines
  import opened RoundTrip
  import P = Pegasus

  // ---------------------------------------------------------------- clean inputs are read back

  lemma ReadingReads(p: P.Parser, lines: seq<string>, cs: seq<P.Collection>, col: P.Collection, games: seq<P.Game>,
                     n: nat)
    requires p.Valid() && P.Flush(p).collections == cs && P.FromLine(p, lines, n) == P.Ok(Reading(cs, col, games))
    ensures Reads(p, lines, [col.(games := games)], n)
  {
    hide P.FromLine, P.Flush, Reading;
  }

  lemma MainRead(sys: System, launch: string, es: seq<Entry>)
    requires CleanEntries(es) && Trimmed(sys.key) && Trimmed(LaunchValue(launch))
    ensures Reads(P.Parser([], []), MainHeader(sys, launch) + BlockLines(Blocks(Select(es, Main))),
                  [ParsedMain(sys, launch, es)], 0)
  {
    hide P.FromLine, P.Line, Reading, CleanEntries, Select, Blocks, BlockLines, Sanitize, MainHeader, Reads;
    hide ParsedGames, LaunchValue;
    var p0 := P.Parser([], []);
    var header := MainHeader(sys, launch);
    var col := P.Collection(Sanitize(sys.collection), sys.key, "", LaunchValue(launch), []);
    var main := Select(es, Main);
    MainHeaderRead(sys, launch, 0);
    SelectedAreClean(es, Main);
    BlocksParsed([], col, [], main, |header|);
    assert [] + ParsedGames(main) == ParsedGames(main);
    Then(p0, header, Reading([], col, []), BlockLines(Blocks(main)), Reading([], col, ParsedGames(main)), 0);
    ReadingReads(p0, header + BlockLines(Blocks(main)), [], col, ParsedGames(main), 0);
  }

  lemma SystemRead(sys: System, launch: string, es: seq<Entry>, customs: seq<CustomView>)
    requires CleanInputs(sys, launch, es, customs) && Trimmed(LaunchValue(launch))
    ensures Reads(P.Parser([], []), SystemLines(sys, launch, es, customs),
                  ParsedSystem(sys, launch, es, customs).collections, 0)
  {
    hide P.FromLine, P.Flush, Reads, CleanEntries, CleanCustoms, Select, Blocks, BlockLines;
    hide SectionLines, Sanitize, ParsedPending, ParsedCustoms, PendingSections, CustomSections, MainHeader, LaunchValue;
    var p0 := P.Parser([], []);
    var head := MainHeader(sys, launch) + BlockLines(Blocks(Select(es, Main)));
    var pend, cust := SectionLines(PendingSections(sys, es)), SectionLines(CustomSections(customs, es, launch));
    MainRead(sys, launch, es);
    ReadsOk(p0, head, [ParsedMain(sys, launch, es)], 0);
    var p1 := P.FromLine(p0, head, 0).value;
    PendingRead(p1, sys, es, |head|);
    ReadsThen(p0, head, [ParsedMain(sys, launch, es)], pend, ParsedPending(sys, es), 0);
    var most := [ParsedMain(sys, launch, es)] + ParsedPending(sys, es);
    ReadsOk(p0, head + pend, most, 0);
    CustomsRead(P.FromLine(p0, head + pend, 0).value, customs, es, launch, |head + pend|);
    ReadsThen(p0, head + pend, most, cust, ParsedCustoms(customs, es, launch), 0);
    SectionLinesAppend(PendingSections(sys, es), CustomSections(customs, es, launch));
    Assoc(head, pend, cust);
  }

  lemma ReadsIsParsed(lines: seq<string>, cs: seq<P.Collection>)
    requires EachOneLine(lines) && Reads(P.Parser([], []), lines, cs, 0) && cs != []
    ensures P.ParseFile(JoinLines(lines + [""])) == P.Ok(P.File(cs))
  {
    hide P.FromLine, P.Line;
    var all := lines + [""];
    SplitOfJoin(all);
    var p0 := P.Parser([], []);
    var q := P.FromLine(p0, lines, 0).value;
    P.FromLineAppend(p0, lines, [""], 0);
    SkipBlank(q, [], |lines|);
    NothingToRead(q, |lines| + 1);
    assert [""] + [] == [""] && [] + cs == cs;
    assert |P.Flush(q).collections| == |q.collections|;
  }

  /**
   Every system with clean unsanitised inputs reads back exactly: collections, titles, files,
   fields, assets and launch lines in order.
   */
  lemma CleanSystemRoundTrips(sys: System, es: seq<Entry>, customs: seq<CustomView>)
    requires LaunchCommand(sys).Some? && CleanInputs(sys, LaunchCommand(sys).value, es, customs)
    ensures P.ParseFile(Rendered(sys, es, customs).value) ==
      P.Ok(ParsedSystem(sys, LaunchCommand(sys).value, es, customs))
  {
    hide CleanEntries, CleanCustoms, SystemLines, Reads, P.ParseFile;
    var launch := LaunchCommand(sys).value;
    LaunchValueTrimmed(sys);
    SystemOneLine(sys, launch, es, customs);
    SystemRead(sys, launch, es, customs);
    ReadsIsParsed(SystemLines(sys, launch, es, customs), ParsedSystem(sys, launch, es, customs).collections);
  }

  // ---------------------------------------------------------------- unclean inputs are not

  ghost predicate CleanGame(g: P.Game) {
    forall stem :: stem in g.assets ==> CleanStem(stem) && CleanName(g.assets[stem])
  }

  ghost predicate CleanGames(gs: seq<P.Game>) {
    forall k :: 0 <= k < |gs| ==> CleanGame(gs[k])
  }

  ghost predicate CleanCollection(c: P.Collection) {
    CleanName(c.shortname) && CleanName(c.launch) && CleanGames(c.games)
  }

  ghost predicate CleanParser(p: P.Parser) {
    (forall k :: 0 <= k < |p.collections| ==> CleanCollection(p.collections[k])) && CleanGames(p.game)
  }

  lemma FlushKeepsClean(p: P.Parser)
    requires p.Valid() && CleanParser(p)
    ensures CleanParser(P.Flush(p))
  {
    if p.game != [] {
      var cur := p.collections[|p.collections| - 1];
      assert CleanGames(cur.games + p.game);
    }
  }

  lemma PropertyKeepsClean(p: P.Parser, key: string, value: string, n: nat)
    requires p.Valid() && CleanParser(p) && CleanName(value) && Trimmed(key) && OneLine(key) && ':' !in key
    requires P.Property(p, key, value, n).Ok?
    ensures CleanParser(P.Property(p, key, value, n).value)
  {
    hide P.Flush, CleanName, CleanStem, CleanGame;
    FlushKeepsClean(p);
    if key == "collection" {
      NothingIsClean();
    } else if key == "game" {
      NewGameIsClean(value);
    } else if key == "file" {
      SameAssetsClean(p.game[0], p.game[0].(file := value));
    } else if HasPrefix(key, P.ASSETS) {
      AssetStaysClean(p.game[0], key, value);
    } else if p.game != [] {
      SameAssetsClean(p.game[0], P.AddField(p.game[0], key, value));
    }
  }

  lemma NothingIsClean()
    ensures CleanName("")
  {
  }

  lemma NewGameIsClean(title: string)
    ensures CleanGame(P.Game(title, "", map[], map[], map[]))
  {
  }

  lemma SameAssetsClean(g: P.Game, h: P.Game)
    requires CleanGame(g) && h.assets == g.assets
    ensures CleanGame(h)
  {
  }

  lemma AssetStaysClean(g: P.Game, key: string, value: string)
    requires CleanGame(g) && CleanName(value) && HasPrefix(key, P.ASSETS) && Trimmed(key) && OneLine(key) && ':' !in key
    ensures CleanGame(g.(assets := g.assets[key[|P.ASSETS|..] := value]))
  {
    var stem := key[|P.ASSETS|..];
    assert key == key[..|P.ASSETS|] + stem;
    assert stem != "" ==> stem[|stem| - 1] == key[|key| - 1];
  }

  lemma LineKeepsClean(p: P.Parser, line: string, n: nat)
    requires p.Valid() && CleanParser(p) && OneLine(line) && P.Line(p, line, n).Ok?
    ensures CleanParser(P.Line(p, line, n).value)
  {
    hide P.Property, CleanParser, TrimSpace;
    if !P.Skipped(line) {
      var i := IndexOf(line, ':');
      assert forall c :: c in line[..i] ==> c in line;
      assert forall c :: c in line[i + 1..] ==> c in line;
      PropertyKeepsClean(p, P.LineKey(line), P.LineValue(line), n);
    }
  }

  lemma {:induction false} LinesKeepClean(p: P.Parser, lines: seq<string>, n: nat)
    requires p.Valid() && CleanParser(p) && EachOneLine(lines) && P.FromLine(p, lines, n).Ok?
    ensures CleanParser(P.FromLine(p, lines, n).value)
    decreases |lines|
  {
    hide P.Line, CleanParser;
    if lines != [] {
      LineKeepsClean(p, lines[0], n + 1);
      LinesKeepClean(P.Line(p, lines[0], n + 1).value, lines[1..], n + 1);
    }
  }

  /** Whatever bytes it is given, the parser never returns an unclean shortname, launch line or asset. */
  lemma ParsedIsClean(raw: string)
    requires P.ParseFile(raw).Ok?
    ensures forall k :: 0 <= k < |P.ParseFile(raw).value.collections| ==>
      CleanCollection(P.ParseFile(raw).value.collections[k])
  {
    hide P.FromLine, CleanCollection;
    var p := P.FromLine(P.Parser([], []), SplitLines(raw), 0).value;
    LinesKeepClean(P.Parser([], []), SplitLines(raw), 0);
    FlushKeepsClean(p);
  }

  ghost predicate DistinctStems(assets: seq<Asset>) {
    forall j, k :: 0 <= j < k < |assets| ==> assets[j].stem != assets[k].stem
  }

  lemma {:induction false} WithAssetsKeeps(m: map<string, string>, assets: seq<Asset>, stem: string)
    requires stem in m && forall k :: 0 <= k < |assets| ==> assets[k].stem != stem
    ensures stem in WithAssets(m, assets) && WithAssets(m, assets)[stem] == m[stem]
    decreases |assets|
  {
    if assets != [] {
      WithAssetsKeeps(m[assets[0].stem := assets[0].path], assets[1..], stem);
    }
  }

  lemma {:induction false} WithAssetsHas(m: map<string, string>, assets: seq<Asset>, k: nat)
    requires k < |assets| && DistinctStems(assets)
    ensures assets[k].stem in WithAssets(m, assets) && WithAssets(m, assets)[assets[k].stem] == assets[k].path
    decreases |assets|
  {
    var m' := m[assets[0].stem := assets[0].path];
    if k == 0 {
      WithAssetsKeeps(m', assets[1..], assets[0].stem);
    } else {
      WithAssetsHas(m', assets[1..], k - 1);
    }
  }

  lemma {:induction false} ParsedGameAt(es: seq<Entry>, k: nat)
    requires k < |es|
    ensures |ParsedGames(es)| == |es| && ParsedGames(es)[k] == ParsedGame(es[k])
  {
    hide ParsedGame;
    if |es| > 1 {
      ParsedGameAt(es[1..], if k == 0 then 0 else k - 1);
    }
  }

  lemma CleanGamesCleanEntry(es: seq<Entry>, e: Entry)
    requires e in es && DistinctStems(e.assets) && CleanGames(ParsedGames(es))
    ensures CleanEntry(e)
  {
    var i :| 0 <= i < |es| && es[i] == e;
    ParsedGameAt(es, i);
    assert CleanGame(ParsedGames(es)[i]);
    forall k | 0 <= k < |e.assets|
      ensures CleanAsset(e.assets[k])
    {
      WithAssetsHas(map[], e.assets, k);
    }
  }

  ghost predicate AllDistinctStems(es: seq<Entry>) {
    forall k :: 0 <= k < |es| ==> DistinctStems(es[k].assets)
  }

  lemma CleanListsCleanEntries(es: seq<Entry>)
    requires AllDistinctStems(es)
    requires CleanGames(ParsedGames(Select(es, Main))) && CleanGames(ParsedGames(Select(es, Pending)))
    ensures CleanEntries(es)
  {
    hide CleanGames, CleanEntry, DistinctStems, ParsedGames;
    MainAndPendingPartition(es);
    forall k | 0 <= k < |es|
      ensures CleanEntry(es[k])
    {
      assert es[k] in es;
      CleanGamesCleanEntry(Select(es, if es[k].playable then Main else Pending), es[k]);
    }
  }

  lemma {:induction false} CleanCollectionsCleanCustoms(customs: seq<CustomView>, es: seq<Entry>, launch: string)
    requires forall k :: 0 <= k < |ParsedCustoms(customs, es, launch)| ==>
      CleanName(ParsedCustoms(customs, es, launch)[k].shortname)
    ensures CleanCustoms(customs, es)
  {
    hide Select, ParsedGames, CleanName, Sanitize;
    if customs != [] {
      var first, rest := ParsedCustom(customs[0], es, launch), ParsedCustoms(customs[1..], es, launch);
      var all := ParsedCustoms(customs, es, launch);
      assert all == first + rest;
      forall k | 0 <= k < |rest|
        ensures CleanName(rest[k].shortname)
      {
        assert rest[k] == all[|first| + k];
      }
      CleanCollectionsCleanCustoms(customs[1..], es, launch);
      if Populated(customs[0], es) {
        assert all[0].shortname == customs[0].shortname;
      }
      CustomsFromHead(customs, es);
    }
  }

  lemma CustomsFromHead(customs: seq<CustomView>, es: seq<Entry>)
    requires customs != [] && CleanCustoms(customs[1..], es)
    requires Populated(customs[0], es) ==> CleanName(customs[0].shortname)
    ensures CleanCustoms(customs, es)
  {
    forall k | 0 <= k < |customs| && Populated(customs[k], es)
      ensures CleanName(customs[k].shortname)
    {
      if k > 0 {
        assert customs[k] == customs[1..][k - 1];
      }
    }
  }

  lemma CleanFileCleanInputs(sys: System, launch: string, es: seq<Entry>, customs: seq<CustomView>)
    requires AllDistinctStems(es)
    requires var cs := ParsedSystem(sys, launch, es, customs).collections;
      forall k :: 0 <= k < |cs| ==> CleanCollection(cs[k])
    ensures CleanInputs(sys, launch, es, customs)
  {
    hide CleanGames, CleanEntries, CleanCustoms, Select, ParsedGames, ParsedCustoms, Sanitize, AllDistinctStems;
    var cs := ParsedSystem(sys, launch, es, customs).collections;
    var pend, cust := ParsedPending(sys, es), ParsedCustoms(customs, es, launch);
    assert cs[0] == ParsedMain(sys, launch, es);
    assert forall c :: c in launch ==> c in LaunchValue(launch);
    if Select(es, Pending) == [] {
      NoGamesClean();
    } else {
      assert cs[1] == pend[0];
    }
    CleanListsCleanEntries(es);
    forall k | 0 <= k < |cust|
      ensures CleanName(cust[k].shortname)
    {
      assert cs[1 + |pend| + k] == cust[k];
    }
    CleanCollectionsCleanCustoms(customs, es, launch);
  }

  lemma NoGamesClean()
    ensures CleanGames(ParsedGames([]))
  {
  }

  // ---------------------------------------------------------------- the round trip

  /**
   Parsing a rendered file gives back exactly the rendered collections if and only if
   the values printed without sanitising are clean: the key, the launch command, the
   populated custom shortnames and every asset. MediaAssets makes stems distinct.
   */
  lemma RoundTripsExactlyWhenClean(sys: System, es: seq<Entry>, customs: seq<CustomView>)
    requires LaunchCommand(sys).Some? && AllDistinctStems(es)
    ensures P.ParseFile(Rendered(sys, es, customs).value) ==
      P.Ok(ParsedSystem(sys, LaunchCommand(sys).value, es, customs))
      <==> CleanInputs(sys, LaunchCommand(sys).value, es, customs)
  {
    hide CleanInputs, P.ParseFile, ParsedSystem, SystemLines, CleanCollection;
    var launch, raw := LaunchCommand(sys).value, Rendered(sys, es, customs).value;
    if P.ParseFile(raw) == P.Ok(ParsedSystem(sys, launch, es, customs)) {
      ParsedIsClean(raw);
      CleanFileCleanInputs(sys, launch, es, customs);
    }
    if CleanInputs(sys, launch, es, customs) {
      CleanSystemRoundTrips(sys, es, customs);
    }
  }

  const COLON_GAME := Entry(GameMeta("g.nes", "", "", "", "", "", ""),
                            [Asset("cover:front", "media/g/cover:front.png")], true)
  const COLON_SYSTEM := System("nes", "NES", "fceumm", "")

  lemma OneMediaFile(name: string, baseNoExt: string)
    ensures IsMediaAssets([name], baseNoExt, [AssetOf(name, baseNoExt)])
  {
    hide Stem;
    BeforeTotal(name, name);
    assert name in [name] && FirstWithStem([name], name);
  }

  lemma ColonNames()
    ensures "cover:front" + "." + "png" == "cover:front.png" && "g" + "." + "nes" == "g.nes"
  {
  }

  lemma ColonPath()
    ensures "media/" + "g" + "/" + "cover:front.png" == "media/g/cover:front.png"
  {
  }

  lemma ColonAssetIsFound()
    ensures IsMediaAssets(["cover:front.png"], "g", COLON_GAME.assets) && Stem(BaseName(COLON_GAME.meta.relPath)) == "g"
  {
    hide Stem, IsMediaAssets;
    ColonNames();
    ColonPath();
    StemBefore("cover:front", "png");
    StemBefore("g", "nes");
    OneMediaFile("cover:front.png", "g");
    assert BaseName("g.nes") == "g.nes";
  }

  lemma ColonGameIsUnclean()
    ensures !CleanEntries([COLON_GAME]) && AllDistinctStems([COLON_GAME])
  {
    var asset := COLON_GAME.assets[0];
    assert asset.stem[5] == ':' && !CleanStem(asset.stem);
    assert !CleanEntry([COLON_GAME][0]);
  }

  /** One media file named cover:front.png is enough to break the round trip. */
  lemma ColonInStemExample()
    ensures IsMediaAssets(["cover:front.png"], "g", COLON_GAME.assets) && Stem(BaseName(COLON_GAME.meta.relPath)) == "g"
    ensures LaunchCommand(COLON_SYSTEM).Some?
    ensures P.ParseFile(Rendered(COLON_SYSTEM, [COLON_GAME], []).value) !=
      P.Ok(ParsedSystem(COLON_SYSTEM, LaunchCommand(COLON_SYSTEM).value, [COLON_GAME], []))
  {
    hide P.ParseFile, Rendered, ParsedSystem, Stem, BaseName, IsMediaAssets, CleanEntries, AllDistinctStems;
    ColonAssetIsFound();
    ColonGameIsUnclean();
    RoundTripsExactlyWhenClean(COLON_SYSTEM, [COLON_GAME], []);
  }

  // ---------------------------------------------------------------- a line feed in a media file name

  lemma {:induction false} AssetLineIn(assets: seq<Asset>, k: nat)
    requires k < |assets|
    ensures Prop("assets." + assets[k].stem, assets[k].path) in AssetLines(assets)
  {
    if k > 0 {
      AssetLineIn(assets[1..], k - 1);
    }
  }

  lemma {:induction false} BlockLineIn(es: seq<Entry>, k: nat, line: string)
    requires k < |es| && line in GameLines(es[k])
    ensures line in BlockLines(Blocks(es))
  {
    hide GameLines;
    assert Blocks(es)[0] == GameLines(es[0]) && Blocks(es)[1..] == Blocks(es[1..]);
    if k > 0 {
      BlockLineIn(es[1..], k - 1, line);
    }
  }

  lemma GameLineIn(sys: System, launch: string, es: seq<Entry>, customs: seq<CustomView>, e: Entry, line: string)
    requires e in es && line in GameLines(e)
    ensures line in SystemLines(sys, launch, es, customs)
  {
    hide GameLines, Select, Blocks, BlockLines, CustomSections, MainHeader, PendingHeader;
    MainAndPendingPartition(es);
    var listed := Select(es, if e.playable then Main else Pending);
    var k :| 0 <= k < |listed| && listed[k] == e;
    BlockLineIn(listed, k, line);
    if !e.playable {
      OneSection(PendingHeader(sys), Blocks(listed));
      SectionLinesAppend(PendingSections(sys, es), CustomSections(customs, es, launch));
    }
  }

  /** A line feed in a media file's stem before any colon makes the whole file unparseable. */
  lemma LineFeedInStemRefused(sys: System, es: seq<Entry>, customs: seq<CustomView>, e: Entry, k: nat)
    requires LaunchCommand(sys).Some? && e in es && k < |e.assets|
    requires var stem := e.assets[k].stem; NL in stem && ':' !in stem[..IndexOf(stem, NL)]
    ensures P.ParseFile(Rendered(sys, es, customs).value).Err?
  {
    hide GameLines, SystemLines, P.FromLine, AssetLines, JoinLines, LaunchCommand;
    var stem, path := e.assets[k].stem, e.assets[k].path;
    var line := Prop("assets." + stem, path);
    AssetLineIn(e.assets, k);
    assert line in GameLines(e) by {
      GameEndsWithAssets(e);
    }
    GameLineIn(sys, LaunchCommand(sys).value, es, customs, e, line);
    var printed := SystemLines(sys, LaunchCommand(sys).value, es, customs);
    var i :| 0 <= i < |printed| && printed[i] == line;
    var lines := printed + [""];
    assert lines[i] == line;
    SplitKeepsPieces(lines, i);
    BrokenPiece(stem, path);
    var raw := SplitLines(JoinLines(lines));
    var piece := "assets." + stem[..IndexOf(stem, NL)];
    var j :| 0 <= j < |raw| && raw[j] == piece;
    assert piece[0] == 'a';
    P.ColonlessLineRefused(P.Parser([], []), raw, j, 0);
  }

  lemma GameEndsWithAssets(e: Entry)
    ensures forall line :: line in AssetLines(e.assets) ==> line in GameLines(e)
  {
    hide FieldLine, AssetLines, Sanitize, GameTitle;
  }

  lemma BrokenPiece(stem: string, path: string)
    requires NL in stem
    ensures "assets." + stem[..IndexOf(stem, NL)] in SplitLines(Prop("assets." + stem, path))
  {
    var i := IndexOf(stem, NL);
    var head := "assets." + stem[..i];
    var line := Prop("assets." + stem, path);
    assert line == head + [NL] + (stem[i + 1..] + ": " + path);
    IndexAfterPrefix(head, stem[i + 1..] + ": " + path, NL);
    assert line[..|head|] == head;
  }

  // ---------------------------------------------------------------- validity

  /** Sanitised paths are non-empty and distinct. */
  ghost predicate PathsOk(es: seq<Entry>) {
    (forall k :: 0 <= k < |es| ==> Sanitize(es[k].meta.relPath) != "") &&
    forall j, k :: 0 <= j < k < |es| ==> Sanitize(es[j].meta.relPath) != Sanitize(es[k].meta.relPath)
  }

  lemma GamesOkExactly(es: seq<Entry>)
    ensures P.GamesOk(ParsedGames(es)) <==> PathsOk(es)
  {
    hide Sanitize, GameTitle, WithAssets, ParsedFields;
    var gs := ParsedGames(es);
    forall k | 0 <= k < |es|
      ensures |gs| == |es| && gs[k].file == Sanitize(es[k].meta.relPath)
    {
      ParsedGameAt(es, k);
    }
    SameLength(es);
  }

  lemma {:induction false} SameLength(es: seq<Entry>)
    ensures |ParsedGames(es)| == |es|
  {
    if es != [] {
      ParsedGameAt(es, 0);
    }
  }

  lemma PathsOkHead(e: Entry, rest: seq<Entry>)
    ensures PathsOk([e] + rest) <==>
      PathsOk(rest) && Sanitize(e.meta.relPath) != "" &&
      forall x :: x in rest ==> Sanitize(x.meta.relPath) != Sanitize(e.meta.relPath)
  {
    hide Sanitize;
    var all := [e] + rest;
    if PathsOk(all) {
      forall j, k | 0 <= j < k < |rest|
        ensures Sanitize(rest[j].meta.relPath) != Sanitize(rest[k].meta.relPath)
      {
        assert all[j + 1] == rest[j] && all[k + 1] == rest[k];
      }
      forall k | 0 <= k < |rest|
        ensures Sanitize(rest[k].meta.relPath) != "" && Sanitize(rest[k].meta.relPath) != Sanitize(e.meta.relPath)
      {
        assert all[k + 1] == rest[k] && all[0] == e;
      }
    }
  }

  /** A custom collection lists a subsequence of the main one. */
  lemma {:induction false} MembersPathsOk(es: seq<Entry>, paths: set<string>)
    requires PathsOk(Select(es, Main))
    ensures PathsOk(Select(es, Members(paths)))
    ensures forall e :: e in Select(es, Members(paths)) ==> e in Select(es, Main)
  {
    hide Sanitize, PathsOk;
    if es == [] {
    } else {
      var rest := es[1..];
      if es[0].playable {
        PathsOkHead(es[0], Select(rest, Main));
      } else {
        assert Select(es, Main) == Select(rest, Main);
      }
      MembersPathsOk(rest, paths);
      assert !Lists(Members(paths), es[0]) ==> Select(es, Members(paths)) == Select(rest, Members(paths));
      PathsOkHead(es[0], Select(rest, Members(paths)));
    }
  }

  /** The custom views that are printed, in order. */
  function PopulatedOnly(customs: seq<CustomView>, es: seq<Entry>): seq<CustomView> {
    if customs == [] then []
    else (if Populated(customs[0], es) then [customs[0]] else []) + PopulatedOnly(customs[1..], es)
  }

  lemma {:induction false} CustomsAreParsed(customs: seq<CustomView>, es: seq<Entry>, launch: string)
    ensures var cvs, cs := PopulatedOnly(customs, es), ParsedCustoms(customs, es, launch);
      |cvs| == |cs| && forall k :: 0 <= k < |cvs| ==>
        Populated(cvs[k], es) && [cs[k]] == ParsedCustom(cvs[k], es, launch)
  {
    hide Select, ParsedGames, Sanitize;
    if customs != [] {
      CustomsAreParsed(customs[1..], es, launch);
      var cvs, cs := PopulatedOnly(customs, es), ParsedCustoms(customs, es, launch);
      if Populated(customs[0], es) {
        assert [cs[0]] == ParsedCustom(customs[0], es, launch);
        assert cvs[1..] == PopulatedOnly(customs[1..], es) && cs[1..] == ParsedCustoms(customs[1..], es, launch);
      } else {
        assert cvs == PopulatedOnly(customs[1..], es) && cs == ParsedCustoms(customs[1..], es, launch);
      }
    }
  }

  /** No non-empty name occurs twice. */
  ghost predicate NamesDistinct(names: seq<string>) {
    forall j, k :: 0 <= j < k < |names| ==> names[j] == "" || names[j] != names[k]
  }

  lemma NamesDistinctHead(name: string, rest: seq<string>)
    ensures NamesDistinct([name] + rest) <==> NamesDistinct(rest) && (name == "" || name !in rest)
  {
    var all := [name] + rest;
    if NamesDistinct(all) {
      forall j, k | 0 <= j < k < |rest|
        ensures rest[j] == "" || rest[j] != rest[k]
      {
        assert all[j + 1] == rest[j] && all[k + 1] == rest[k];
      }
      forall k | 0 <= k < |rest|
        ensures name == "" || rest[k] != name
      {
        assert all[k + 1] == rest[k] && all[0] == name;
      }
    }
  }

  function ShortnamesOf(cvs: seq<CustomView>): seq<string> {
    seq(|cvs|, k requires 0 <= k < |cvs| => cvs[k].shortname)
  }

  /** The shortnames of the populated custom views clash neither with each other nor with the system's own. */
  ghost predicate ShortnamesOk(sys: System, es: seq<Entry>, customs: seq<CustomView>) {
    var names := ShortnamesOf(PopulatedOnly(customs, es));
    NamesDistinct(names) && (sys.key == "" || sys.key !in names) &&
    (Select(es, Pending) == [] || sys.key + "-pending" !in names)
  }

  /** The validator accepts a rendered and re-read system exactly when paths and shortnames are usable. */
  lemma ValidExactlyWhenDistinct(sys: System, launch: string, es: seq<Entry>, customs: seq<CustomView>)
    ensures P.ValidFile(ParsedSystem(sys, launch, es, customs)) <==>
      PathsOk(Select(es, Main)) && PathsOk(Select(es, Pending)) && ShortnamesOk(sys, es, customs)
  {
    hide PathsOk, P.GamesOk, ParsedGames, Sanitize, Select;
    GamesExactly(sys, launch, es, customs);
    ShortnamesExactly(sys, launch, es, customs);
    AllLaunchable(sys, launch, es, customs);
  }

  lemma AllLaunchable(sys: System, launch: string, es: seq<Entry>, customs: seq<CustomView>)
    ensures var cs := ParsedSystem(sys, launch, es, customs).collections;
      cs != [] && forall k :: 0 <= k < |cs| ==> P.Launchable(cs[k])
  {
    hide ParsedGames, Sanitize, Select, ParsedCustoms, PendingTitle;
    CustomsAreParsed(customs, es, launch);
    var pend, cust := ParsedPending(sys, es), ParsedCustoms(customs, es, launch);
    var cs := ParsedSystem(sys, launch, es, customs).collections;
    forall k | 0 <= k < |cs|
      ensures P.Launchable(cs[k])
    {
      if k > |pend| {
        var i := k - 1 - |pend|;
        assert cs[k] == cust[i] && [cust[i]] == ParsedCustom(PopulatedOnly(customs, es)[i], es, launch);
        assert [cust[i]][0].launch == LaunchValue(launch);
      } else if k == 1 {
        assert cs[1] == pend[0] && HasSuffix(sys.key + "-pending", P.PENDING_SUFFIX);
      }
    }
  }

  lemma GamesExactly(sys: System, launch: string, es: seq<Entry>, customs: seq<CustomView>)
    ensures var cs := ParsedSystem(sys, launch, es, customs).collections;
      (forall k :: 0 <= k < |cs| ==> P.GamesOk(cs[k].games)) <==>
        PathsOk(Select(es, Main)) && PathsOk(Select(es, Pending))
  {
    hide PathsOk, P.GamesOk, ParsedGames, Sanitize, Select, ParsedCustoms, PendingTitle;
    var pend, cust := ParsedPending(sys, es), ParsedCustoms(customs, es, launch);
    var cs := ParsedSystem(sys, launch, es, customs).collections;
    CustomsAreParsed(customs, es, launch);
    GamesOkExactly(Select(es, Main));
    GamesOkExactly(Select(es, Pending));
    NoPathsOk();
    assert cs[0] == ParsedMain(sys, launch, es);
    assert pend != [] ==> cs[1] == pend[0];
    if PathsOk(Select(es, Main)) {
      forall i | 0 <= i < |cust|
        ensures P.GamesOk(cust[i].games)
      {
        var cv := PopulatedOnly(customs, es)[i];
        assert [cust[i]][0] == ParsedCustom(cv, es, launch)[0];
        MembersPathsOk(es, cv.members);
        GamesOkExactly(Select(es, Members(cv.members)));
      }
    }
  }

  lemma NoPathsOk()
    ensures PathsOk([])
  {
  }

  lemma ShortnamesExactly(sys: System, launch: string, es: seq<Entry>, customs: seq<CustomView>)
    ensures P.ShortnamesDistinct(ParsedSystem(sys, launch, es, customs).collections) <==> ShortnamesOk(sys, es, customs)
  {
    hide ParsedGames, Sanitize, Select, ParsedCustoms, PendingTitle, PopulatedOnly;
    var names := ShortnamesOf(PopulatedOnly(customs, es));
    var pend := if Select(es, Pending) == [] then [] else [sys.key + "-pending"];
    SameShortnames(sys, launch, es, customs);
    assert |sys.key| < |sys.key + "-pending"|;
    NamesDistinctHead(sys.key, pend + names);
    if pend == [] {
      assert pend + names == names;
    } else {
      NamesDistinctHead(sys.key + "-pending", names);
    }
    assert [sys.key] + pend + names == [sys.key] + (pend + names);
  }

  lemma SameShortnames(sys: System, launch: string, es: seq<Entry>, customs: seq<CustomView>)
    ensures var pend := if Select(es, Pending) == [] then [] else [sys.key + "-pending"];
      P.ShortnamesDistinct(ParsedSystem(sys, launch, es, customs).collections) <==>
      NamesDistinct([sys.key] + pend + ShortnamesOf(PopulatedOnly(customs, es)))
  {
    hide ParsedGames, Sanitize, Select, ParsedCustoms, PendingTitle, PopulatedOnly;
    var pend, cust, cvs := ParsedPending(sys, es), ParsedCustoms(customs, es, launch), PopulatedOnly(customs, es);
    var cs := ParsedSystem(sys, launch, es, customs).collections;
    var pendNames := if Select(es, Pending) == [] then [] else [sys.key + "-pending"];
    var names := [sys.key] + pendNames + ShortnamesOf(cvs);
    CustomsAreParsed(customs, es, launch);
    assert |names| == |cs|;
    forall k | 0 <= k < |cs|
      ensures cs[k].shortname == names[k]
    {
      if k > |pend| {
        var i := k - 1 - |pend|;
        assert cs[k] == cust[i] && names[k] == cvs[i].shortname;
        assert [cust[i]][0] == ParsedCustom(cvs[i], es, launch)[0];
      }
    }
  }
}
