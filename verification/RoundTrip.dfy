/**
 What the printer writes, the parser reads back (generate.renderSystem against
 pegasus.Parse and Validate).
 */
module RoundTrip {
  import opened Text
  import opened Lines
  import opened LauncherFile
  import P = Pegasus

  // ---------------------------------------------------------------- the expected file

  function WithField(m: map<string, string>, key: string, value: string): map<string, string> {
    if Sanitize(value) == "" then m else m[key := Sanitize(value)]
  }

  function ParsedFields(m: GameMeta): map<string, string> {
    WithField(WithField(WithField(WithField(WithField(WithField(map[],
      "description", m.description), "release", m.release), "developer", m.developer),
      "publisher", m.publisher), "genre", m.genre), "rating", m.rating)
  }

  function WithAssets(m: map<string, string>, assets: seq<Asset>): map<string, string>
    decreases |assets|
  {
    if assets == [] then m else WithAssets(m[assets[0].stem := assets[0].path], assets[1..])
  }

  function ParsedGame(e: Entry): P.Game {
    P.Game(GameTitle(e.meta.relPath), Sanitize(e.meta.relPath), ParsedFields(e.meta), map[],
           WithAssets(map[], e.assets))
  }

  function ParsedGames(es: seq<Entry>): seq<P.Game> {
    if es == [] then [] else [ParsedGame(es[0])] + ParsedGames(es[1..])
  }

  /** An empty collection name leaves the parser a title without its leading space. */
  function PendingTitle(collection: string): string {
    var c := Sanitize(collection);
    if c == "" then "(Pending)" else c + " (Pending)"
  }

  function ParsedMain(sys: System, launch: string, es: seq<Entry>): P.Collection {
    P.Collection(Sanitize(sys.collection), sys.key, "", LaunchValue(launch), ParsedGames(Select(es, Main)))
  }

  function ParsedPending(sys: System, es: seq<Entry>): seq<P.Collection> {
    var pending := Select(es, Pending);
    if pending == [] then []
    else [P.Collection(PendingTitle(sys.collection), sys.key + "-pending", PENDING_SUMMARY, "", ParsedGames(pending))]
  }

  function ParsedCustom(cv: CustomView, es: seq<Entry>, launch: string): seq<P.Collection> {
    var members := Select(es, Members(cv.members));
    if members == [] then []
    else [P.Collection(Sanitize(cv.title), cv.shortname, Sanitize(cv.summary), LaunchValue(launch),
                       ParsedGames(members))]
  }

  function ParsedCustoms(customs: seq<CustomView>, es: seq<Entry>, launch: string): seq<P.Collection> {
    if customs == [] then [] else ParsedCustom(customs[0], es, launch) + ParsedCustoms(customs[1..], es, launch)
  }

  /** The main collection, the pending one if any, then the populated custom ones in order. */
  function ParsedSystem(sys: System, launch: string, es: seq<Entry>, customs: seq<CustomView>): P.File {
    P.File([ParsedMain(sys, launch, es)] + ParsedPending(sys, es) + ParsedCustoms(customs, es, launch))
  }

  // ---------------------------------------------------------------- what is not sanitised must be clean

  predicate OneLine(s: string) { NL !in s }

  /** Values printed as they are: shortnames and media paths. */
  predicate CleanName(s: string) { Trimmed(s) && OneLine(s) }

  /** An asset key is read up to the first colon and trimmed. */
  predicate CleanStem(stem: string) {
    ':' !in stem && OneLine(stem) && (stem == "" || !IsSpace(stem[|stem| - 1]))
  }

  predicate CleanAsset(a: Asset) { CleanStem(a.stem) && CleanName(a.path) }

  predicate CleanEntry(e: Entry) {
    forall k :: 0 <= k < |e.assets| ==> CleanAsset(e.assets[k])
  }

  predicate CleanEntries(es: seq<Entry>) {
    forall k :: 0 <= k < |es| ==> CleanEntry(es[k])
  }

  predicate Populated(cv: CustomView, es: seq<Entry>) { Select(es, Members(cv.members)) != [] }

  predicate CleanCustoms(customs: seq<CustomView>, es: seq<Entry>) {
    forall k :: 0 <= k < |customs| && Populated(customs[k], es) ==> CleanName(customs[k].shortname)
  }

  /** Everything renderSystem prints without sanitising it. */
  predicate CleanInputs(sys: System, launch: string, es: seq<Entry>, customs: seq<CustomView>) {
    CleanName(sys.key) && OneLine(launch) && CleanEntries(es) && CleanCustoms(customs, es)
  }

  // ---------------------------------------------------------------- one property line

  predicate KeyOk(key: string) {
    key != "" && Trimmed(key) && ':' !in key && key[0] != '#'
  }

  lemma PropParsed(p: P.Parser, key: string, value: string, n: nat)
    requires p.Valid() && KeyOk(key)
    ensures P.Line(p, Prop(key, value), n) == P.Property(p, key, TrimSpace([' '] + value), n)
  {
    var line := Prop(key, value);
    assert line == key + [':'] + ([' '] + value);
    IndexAfterPrefix(key, [' '] + value, ':');
    assert line[0] == key[0] && line[|key|] == ':';
    assert line[..|key|] == key && line[|key| + 1..] == [' '] + value;
  }

  lemma TrimmedPropParsed(p: P.Parser, key: string, value: string, n: nat)
    requires p.Valid() && KeyOk(key) && Trimmed(value)
    ensures P.Line(p, Prop(key, value), n) == P.Property(p, key, value, n)
  {
    PropParsed(p, key, value, n);
    TrimLeadingSpace(value);
  }

  lemma OneMore(p: P.Parser, a: seq<string>, q: P.Parser, line: string, r: P.Parser, n: nat)
    requires p.Valid() && P.FromLine(p, a, n) == P.Ok(q)
    requires P.Line(q, line, n + |a| + 1) == P.Ok(r)
    ensures P.FromLine(p, a + [line], n) == P.Ok(r)
  {
    P.FromLineAppend(p, a, [line], n);
    assert [line][1..] == [];
  }

  lemma Then(p: P.Parser, a: seq<string>, q: P.Parser, b: seq<string>, r: P.Parser, n: nat)
    requires p.Valid() && P.FromLine(p, a, n) == P.Ok(q)
    requires P.FromLine(q, b, n + |a|) == P.Ok(r)
    ensures P.FromLine(p, a + b, n) == P.Ok(r)
  {
    P.FromLineAppend(p, a, b, n);
  }

  // ---------------------------------------------------------------- one game block

  /** Inside game g of the last collection of cs. */
  function InGame(cs: seq<P.Collection>, g: P.Game): (p: P.Parser)
    requires cs != []
    ensures p.Valid()
  {
    P.Parser(cs, [g])
  }

  predicate FieldKey(key: string) {
    key in {"description", "release", "developer", "publisher", "genre", "rating"}
  }

  lemma FieldKeyOk(key: string)
    requires FieldKey(key)
    ensures KeyOk(key) && key != "collection" && key != "shortname" && key != "summary" && key != "launch"
    ensures key != "game" && key != "file" && !HasPrefix(key, P.ASSETS)
  {
    assert P.ASSETS[0] == 'a' && key[0] != 'a';
  }

  lemma FieldParsed(cs: seq<P.Collection>, g: P.Game, key: string, value: string, n: nat)
    requires cs != [] && FieldKey(key) && key !in g.fields
    ensures P.FromLine(InGame(cs, g), FieldLine(key, value), n) ==
      P.Ok(InGame(cs, g.(fields := WithField(g.fields, key, value))))
  {
    SanitizedIsClean(value);
    FieldKeyOk(key);
    var v := Sanitize(value);
    if v != "" {
      TrimmedPropParsed(InGame(cs, g), key, v, n + 1);
      assert [Prop(key, v)][1..] == [];
    }
  }

  lemma {:induction false} AssetsParsed(cs: seq<P.Collection>, g: P.Game, assets: seq<Asset>, n: nat)
    requires cs != [] && forall k :: 0 <= k < |assets| ==> CleanAsset(assets[k])
    ensures P.FromLine(InGame(cs, g), AssetLines(assets), n) ==
      P.Ok(InGame(cs, g.(assets := WithAssets(g.assets, assets))))
    decreases |assets|
  {
    if assets != [] {
      var a := assets[0];
      AssetParsed(cs, g, a, n + 1);
      AssetsParsed(cs, g.(assets := g.assets[a.stem := a.path]), assets[1..], n + 1);
      var line := Prop("assets." + a.stem, a.path);
      assert ([line] + AssetLines(assets[1..]))[1..] == AssetLines(assets[1..]);
    }
  }

  lemma AssetParsed(cs: seq<P.Collection>, g: P.Game, a: Asset, n: nat)
    requires cs != [] && CleanAsset(a)
    ensures P.Line(InGame(cs, g), Prop("assets." + a.stem, a.path), n) ==
      P.Ok(InGame(cs, g.(assets := g.assets[a.stem := a.path])))
  {
    hide P.Line, TrimSpace;
    AssetKey(a.stem);
    TrimmedPropParsed(InGame(cs, g), "assets." + a.stem, a.path, n);
  }

  lemma AssetKey(stem: string)
    requires CleanStem(stem)
    ensures var key := "assets." + stem;
      KeyOk(key) && HasPrefix(key, P.ASSETS) && key[|P.ASSETS|..] == stem &&
      key !in {"collection", "shortname", "summary", "launch", "game", "file"}
  {
    var key := "assets." + stem;
    assert key[0] == 'a' && key[|key| - 1] == if stem == "" then '.' else stem[|stem| - 1];
    assert key[0] != 'c' && key[0] != 's' && key[0] != 'l' && key[0] != 'g' && key[0] != 'f';
  }

  /** The parser after the header of col and the given games, the last of them still open. */
  function Reading(cs: seq<P.Collection>, col: P.Collection, games: seq<P.Game>): (p: P.Parser)
    ensures p.Valid() && P.Flush(p).collections == cs + [col.(games := games)]
  {
    if games == [] then P.Parser(cs + [col.(games := [])], [])
    else
      var done := games[..|games| - 1];
      assert done + [games[|games| - 1]] == games;
      P.Parser(cs + [col.(games := done)], [games[|games| - 1]])
  }

  lemma FieldThen(p: P.Parser, a: seq<string>, cs: seq<P.Collection>, g: P.Game, key: string, value: string, n: nat)
    returns (g': P.Game)
    requires p.Valid() && cs != [] && P.FromLine(p, a, n) == P.Ok(InGame(cs, g))
    requires FieldKey(key) && key !in g.fields
    ensures g' == g.(fields := WithField(g.fields, key, value))
    ensures g'.fields.Keys <= g.fields.Keys + {key}
    ensures P.FromLine(p, a + FieldLine(key, value), n) == P.Ok(InGame(cs, g'))
  {
    hide P.Line, P.FromLine, FieldLine;
    g' := g.(fields := WithField(g.fields, key, value));
    FieldParsed(cs, g, key, value, n + |a|);
    Then(p, a, InGame(cs, g), FieldLine(key, value), InGame(cs, g'), n);
  }

  /** The first two lines of a game block. */
  lemma BlockOpened(p: P.Parser, e: Entry, n: nat)
    requires p.Valid() && p.collections != []
    ensures P.FromLine(p, [Prop("game", GameTitle(e.meta.relPath)), Prop("file", Sanitize(e.meta.relPath))], n) ==
      P.Ok(InGame(P.Flush(p).collections,
                  P.Game(GameTitle(e.meta.relPath), Sanitize(e.meta.relPath), map[], map[], map[])))
  {
    hide GameTitle, Sanitize, P.Flush;
    var title, file := GameTitle(e.meta.relPath), Sanitize(e.meta.relPath);
    TitleIsClean(e.meta.relPath);
    SanitizedIsClean(e.meta.relPath);
    TitleThenFile(p, title, file, n);
  }

  lemma TitleThenFile(p: P.Parser, title: string, file: string, n: nat)
    requires p.Valid() && p.collections != [] && Trimmed(title) && Trimmed(file)
    ensures P.FromLine(p, [Prop("game", title), Prop("file", file)], n) ==
      P.Ok(InGame(P.Flush(p).collections, P.Game(title, file, map[], map[], map[])))
  {
    hide P.FromLine, P.Line, P.Flush, TrimSpace;
    var begun := InGame(P.Flush(p).collections, P.Game(title, "", map[], map[], map[]));
    assert P.Line(p, Prop("game", title), n + 1) == P.Ok(begun) by {
      TrimmedPropParsed(p, "game", title, n + 1);
    }
    OneLineRead(p, Prop("game", title), begun, n);
    var named := begun.(game := [P.Game(title, file, map[], map[], map[])]);
    assert P.Line(begun, Prop("file", file), n + 2) == P.Ok(named) by {
      TrimmedPropParsed(begun, "file", file, n + 2);
    }
    OneMore(p, [Prop("game", title)], begun, Prop("file", file), named, n);
    assert [Prop("game", title)] + [Prop("file", file)] == [Prop("game", title), Prop("file", file)];
  }

  lemma OneLineRead(p: P.Parser, line: string, q: P.Parser, n: nat)
    requires p.Valid() && P.Line(p, line, n + 1) == P.Ok(q)
    ensures P.FromLine(p, [line], n) == P.Ok(q)
  {
    assert [line][1..] == [];
  }

  lemma TitleIsClean(relPath: string)
    ensures CleanValue(GameTitle(relPath))
  {
    SanitizedIsClean(Stem(BaseName(relPath)));
    SanitizedIsClean(BaseName(relPath));
  }

  lemma BlockParsed(p: P.Parser, e: Entry, n: nat)
    requires p.Valid() && p.collections != [] && CleanEntry(e)
    ensures P.FromLine(p, GameLines(e), n) == P.Ok(InGame(P.Flush(p).collections, ParsedGame(e)))
  {
    hide P.Line, P.FromLine, P.Flush, FieldLine, GameTitle, Sanitize, CleanAsset;
    var cs, m := P.Flush(p).collections, e.meta;
    var l := [Prop("game", GameTitle(m.relPath)), Prop("file", Sanitize(m.relPath))];
    BlockOpened(p, e, n);
    var g := FieldThen(p, l, cs, P.Game(GameTitle(m.relPath), Sanitize(m.relPath), map[], map[], map[]),
                       "description", m.description, n);
    l := l + FieldLine("description", m.description);
    g := FieldThen(p, l, cs, g, "release", m.release, n);
    l := l + FieldLine("release", m.release);
    g := FieldThen(p, l, cs, g, "developer", m.developer, n);
    l := l + FieldLine("developer", m.developer);
    g := FieldThen(p, l, cs, g, "publisher", m.publisher, n);
    l := l + FieldLine("publisher", m.publisher);
    g := FieldThen(p, l, cs, g, "genre", m.genre, n);
    l := l + FieldLine("genre", m.genre);
    g := FieldThen(p, l, cs, g, "rating", m.rating, n);
    l := l + FieldLine("rating", m.rating);
    AssetsParsed(cs, g, e.assets, n + |l|);
    Then(p, l, InGame(cs, g), AssetLines(e.assets), InGame(cs, ParsedGame(e)), n);
  }

  // ---------------------------------------------------------------- the blocks of one collection

  lemma SkipBlank(p: P.Parser, rest: seq<string>, n: nat)
    requires p.Valid()
    ensures P.FromLine(p, [""] + rest, n) == P.FromLine(p, rest, n + 1)
  {
    assert ([""] + rest)[1..] == rest;
  }

  lemma ReadingOneMore(cs: seq<P.Collection>, col: P.Collection, games: seq<P.Game>, g: P.Game)
    ensures InGame(P.Flush(Reading(cs, col, games)).collections, g) == Reading(cs, col, games + [g])
  {
    assert (games + [g])[..|games|] == games;
  }

  lemma {:induction false} BlocksParsed(cs: seq<P.Collection>, col: P.Collection, games: seq<P.Game>, es: seq<Entry>,
                                        n: nat)
    requires CleanEntries(es)
    ensures P.FromLine(Reading(cs, col, games), BlockLines(Blocks(es)), n) ==
      P.Ok(Reading(cs, col, games + ParsedGames(es)))
    decreases |es|
  {
    hide P.Line, P.FromLine, P.Flush, GameLines, ParsedGame, CleanEntry, Reading;
    if es == [] {
      assert games + [] == games;
      NothingToRead(Reading(cs, col, games), n);
    } else {
      var rest := es[1..];
      var p := Reading(cs, col, games);
      var g := ParsedGame(es[0]);
      var block := [""] + GameLines(es[0]);
      SkipBlank(p, GameLines(es[0]), n);
      CleanHead(es);
      BlockParsed(p, es[0], n + 1);
      ReadingOneMore(cs, col, games, g);
      BlocksParsed(cs, col, games + [g], rest, n + |block|);
      Then(p, block, Reading(cs, col, games + [g]), BlockLines(Blocks(rest)),
           Reading(cs, col, games + [g] + ParsedGames(rest)), n);
      assert games + [g] + ParsedGames(rest) == games + ([g] + ParsedGames(rest));
      assert Blocks(es)[1..] == Blocks(rest) && Blocks(es)[0] == GameLines(es[0]);
    }
  }

  lemma NothingToRead(p: P.Parser, n: nat)
    requires p.Valid()
    ensures P.FromLine(p, [], n) == P.Ok(p)
  {
  }

  lemma CleanHead(es: seq<Entry>)
    requires CleanEntries(es) && es != []
    ensures CleanEntry(es[0]) && CleanEntries(es[1..])
  {
  }

  // ---------------------------------------------------------------- headers

  /** The open header of the last collection. */
  function Header(cs: seq<P.Collection>, col: P.Collection): (p: P.Parser)
    ensures p.Valid()
  {
    P.Parser(cs + [col], [])
  }

  function NewCollection(title: string): P.Collection { P.Collection(title, "", "", "", []) }

  lemma CollectionRead(p: P.Parser, value: string, title: string, n: nat)
    requires p.Valid() && TrimSpace([' '] + value) == title
    ensures P.Line(p, Prop("collection", value), n) == P.Ok(Header(P.Flush(p).collections, NewCollection(title)))
  {
    hide P.Flush, TrimSpace;
    PropParsed(p, "collection", value, n);
  }

  lemma ShortnameRead(cs: seq<P.Collection>, col: P.Collection, value: string, n: nat)
    requires col.games == [] && Trimmed(value)
    ensures P.Line(Header(cs, col), Prop("shortname", value), n) == P.Ok(Header(cs, col.(shortname := value)))
  {
    TrimmedPropParsed(Header(cs, col), "shortname", value, n);
  }

  lemma SummaryRead(cs: seq<P.Collection>, col: P.Collection, value: string, n: nat)
    requires col.games == [] && Trimmed(value)
    ensures P.Line(Header(cs, col), Prop("summary", value), n) == P.Ok(Header(cs, col.(summary := value)))
  {
    TrimmedPropParsed(Header(cs, col), "summary", value, n);
  }

  lemma LaunchRead(cs: seq<P.Collection>, col: P.Collection, value: string, n: nat)
    requires col.games == [] && Trimmed(value)
    ensures P.Line(Header(cs, col), Prop("launch", value), n) == P.Ok(Header(cs, col.(launch := value)))
  {
    TrimmedPropParsed(Header(cs, col), "launch", value, n);
  }

  lemma LaunchValueTrimmed(sys: System)
    requires LaunchCommand(sys).Some?
    ensures Trimmed(LaunchValue(LaunchCommand(sys).value))
  {
    var v := LaunchValue(LaunchCommand(sys).value);
    assert v[0] == 'j' && v[|v| - 1] == '"';
  }

  lemma MainHeaderRead(sys: System, launch: string, n: nat)
    requires Trimmed(sys.key) && Trimmed(LaunchValue(launch))
    ensures P.FromLine(P.Parser([], []), MainHeader(sys, launch), n) ==
      P.Ok(Reading([], P.Collection(Sanitize(sys.collection), sys.key, "", LaunchValue(launch), []), []))
  {
    hide P.Line, P.FromLine, Sanitize, TrimSpace;
    var p := P.Parser([], []);
    var title, value := Sanitize(sys.collection), LaunchValue(launch);
    SanitizedIsClean(sys.collection);
    TrimLeadingSpace(title);
    var c0 := NewCollection(title);
    var c1 := c0.(shortname := sys.key);
    CollectionRead(p, title, title, n + 1);
    OneLineRead(p, Prop("collection", title), Header([], c0), n);
    ShortnameRead([], c0, sys.key, n + 2);
    OneMore(p, [Prop("collection", title)], Header([], c0), Prop("shortname", sys.key), Header([], c1), n);
    LaunchRead([], c1, value, n + 3);
    OneMore(p, [Prop("collection", title)] + [Prop("shortname", sys.key)], Header([], c1),
            Prop("launch", value), Header([], c1.(launch := value)), n);
    assert MainHeader(sys, launch) ==
      [Prop("collection", title)] + [Prop("shortname", sys.key)] + [Prop("launch", value)];
  }

  lemma PendingTitleRead(collection: string)
    ensures TrimSpace([' '] + (Sanitize(collection) + " (Pending)")) == PendingTitle(collection)
  {
    var c := Sanitize(collection);
    SanitizedIsClean(collection);
    if c == "" {
      assert c + " (Pending)" == [' '] + "(Pending)";
      var once := [' '] + "(Pending)";
      assert once[1..] == "(Pending)" && ([' '] + once)[1..] == once;
      assert TrimLeft([' '] + once) == TrimLeft(once) == TrimLeft("(Pending)");
    } else {
      TrimLeadingSpace(c + " (Pending)");
    }
  }

  lemma FixedTexts()
    ensures CUSTOM_LINE[0] == '#' && PENDING_LINE[0] == '#' && Trimmed(PENDING_SUMMARY)
  {
    assert "Still downloading"[0] == 'S';
    assert "Still downloading or incomplete -"[0] == 'S';
    assert PENDING_SUMMARY[0] == 'S' && PENDING_SUMMARY[|PENDING_SUMMARY| - 1] == '.';
  }

  lemma CommentRead(p: P.Parser, line: string, n: nat)
    requires p.Valid() && line != "" && line[0] == '#'
    ensures P.FromLine(p, [line], n) == P.Ok(p)
  {
    OneLineRead(p, line, p, n);
  }

  lemma PendingHeaderRead(p: P.Parser, sys: System, n: nat)
    requires p.Valid() && Trimmed(sys.key)
    ensures P.FromLine(p, PendingHeader(sys), n) ==
      P.Ok(Reading(P.Flush(p).collections,
                   P.Collection(PendingTitle(sys.collection), sys.key + "-pending", PENDING_SUMMARY, "", []), []))
  {
    hide P.Line, P.FromLine, P.Flush, Sanitize, TrimSpace, PendingTitle;
    var value, short := Sanitize(sys.collection) + " (Pending)", sys.key + "-pending";
    var cs := P.Flush(p).collections;
    PendingTitleRead(sys.collection);
    var c0 := NewCollection(PendingTitle(sys.collection));
    var c1 := c0.(shortname := short);
    assert short[|short| - 1] == 'g' && short[0] == (if sys.key == "" then '-' else sys.key[0]);
    FixedTexts();
    CommentRead(p, PENDING_LINE, n);
    CollectionRead(p, value, PendingTitle(sys.collection), n + 2);
    OneMore(p, [PENDING_LINE], p, Prop("collection", value), Header(cs, c0), n);
    ShortnameRead(cs, c0, short, n + 3);
    OneMore(p, [PENDING_LINE] + [Prop("collection", value)], Header(cs, c0),
            Prop("shortname", short), Header(cs, c1), n);
    SummaryRead(cs, c1, PENDING_SUMMARY, n + 4);
    OneMore(p, [PENDING_LINE] + [Prop("collection", value)] + [Prop("shortname", short)], Header(cs, c1),
            Prop("summary", PENDING_SUMMARY), Header(cs, c1.(summary := PENDING_SUMMARY)), n);
    assert PendingHeader(sys) ==
      [PENDING_LINE] + [Prop("collection", value)] + [Prop("shortname", short)] + [Prop("summary", PENDING_SUMMARY)];
  }

  function CustomCollection(cv: CustomView, launch: string): P.Collection {
    P.Collection(Sanitize(cv.title), cv.shortname, Sanitize(cv.summary), LaunchValue(launch), [])
  }

  lemma CustomHeaderRead(p: P.Parser, cv: CustomView, launch: string, n: nat)
    requires p.Valid() && Trimmed(cv.shortname) && Trimmed(LaunchValue(launch))
    ensures P.FromLine(p, CustomHeader(cv, launch), n) ==
      P.Ok(Reading(P.Flush(p).collections, CustomCollection(cv, launch), []))
  {
    hide P.Line, P.FromLine, P.Flush, Sanitize, TrimSpace;
    var title, summary, value := Sanitize(cv.title), Sanitize(cv.summary), LaunchValue(launch);
    var cs := P.Flush(p).collections;
    SanitizedIsClean(cv.title);
    SanitizedIsClean(cv.summary);
    TrimLeadingSpace(title);
    var c0 := NewCollection(title);
    var c1 := c0.(shortname := cv.shortname);
    var c2 := c1.(summary := summary);
    FixedTexts();
    CommentRead(p, CUSTOM_LINE, n);
    CollectionRead(p, title, title, n + 2);
    OneMore(p, [CUSTOM_LINE], p, Prop("collection", title), Header(cs, c0), n);
    ShortnameRead(cs, c0, cv.shortname, n + 3);
    var head := [CUSTOM_LINE] + [Prop("collection", title)];
    OneMore(p, head, Header(cs, c0), Prop("shortname", cv.shortname), Header(cs, c1), n);
    head := head + [Prop("shortname", cv.shortname)];
    if summary != "" {
      SummaryRead(cs, c1, summary, n + 4);
      OneMore(p, head, Header(cs, c1), Prop("summary", summary), Header(cs, c2), n);
      head := head + [Prop("summary", summary)];
    }
    LaunchRead(cs, c2, value, n + |head| + 1);
    OneMore(p, head, Header(cs, c2), Prop("launch", value), Header(cs, c2.(launch := value)), n);
    assert CustomHeader(cv, launch) == head + [Prop("launch", value)];
  }

  // ---------------------------------------------------------------- sections

  /** A header and its blocks, read after a blank line. */
  lemma SectionRead(p: P.Parser, header: seq<string>, cs: seq<P.Collection>, col: P.Collection, es: seq<Entry>, n: nat)
    requires p.Valid() && CleanEntries(es)
    requires P.FromLine(p, header, n + 1) == P.Ok(Reading(cs, col, []))
    ensures P.FromLine(p, [""] + header + BlockLines(Blocks(es)), n) == P.Ok(Reading(cs, col, ParsedGames(es)))
  {
    hide P.FromLine, Reading, CleanEntries;
    SkipBlank(p, header, n);
    BlocksParsed(cs, col, [], es, n + |[""] + header|);
    assert [] + ParsedGames(es) == ParsedGames(es);
    Then(p, [""] + header, Reading(cs, col, []), BlockLines(Blocks(es)), Reading(cs, col, ParsedGames(es)), n);
  }

  lemma {:induction false} SelectedAreClean(es: seq<Entry>, l: Listing)
    requires CleanEntries(es)
    ensures CleanEntries(Select(es, l))
  {
    hide CleanEntry;
    if es != [] {
      SelectedAreClean(es[1..], l);
    }
  }

  /** Reading a section list leaves the parser with these collections once the last game is flushed. */
  ghost predicate Reads(p: P.Parser, lines: seq<string>, more: seq<P.Collection>, n: nat)
    requires p.Valid()
  {
    P.FromLine(p, lines, n).Ok? && P.Flush(P.FromLine(p, lines, n).value).collections == P.Flush(p).collections + more
  }

  lemma ReadsThen(p: P.Parser, a: seq<string>, as': seq<P.Collection>, b: seq<string>, bs: seq<P.Collection>, n: nat)
    requires p.Valid() && Reads(p, a, as', n)
    requires Reads(P.FromLine(p, a, n).value, b, bs, n + |a|)
    ensures Reads(p, a + b, as' + bs, n)
  {
    hide P.Flush;
    P.FromLineAppend(p, a, b, n);
    Assoc(P.Flush(p).collections, as', bs);
  }

  lemma PendingRead(p: P.Parser, sys: System, es: seq<Entry>, n: nat)
    requires p.Valid() && CleanEntries(es) && Trimmed(sys.key)
    ensures Reads(p, SectionLines(PendingSections(sys, es)), ParsedPending(sys, es), n)
  {
    hide P.FromLine, P.Flush, PendingHeader, Reading, CleanEntries;
    var pending := Select(es, Pending);
    if pending == [] {
      NothingToRead(p, n);
      assert P.Flush(p).collections + [] == P.Flush(p).collections;
    } else {
      var col := P.Collection(PendingTitle(sys.collection), sys.key + "-pending", PENDING_SUMMARY, "", []);
      PendingHeaderRead(p, sys, n + 1);
      SelectedAreClean(es, Pending);
      SectionRead(p, PendingHeader(sys), P.Flush(p).collections, col, pending, n);
      OneSection(PendingHeader(sys), Blocks(pending));
    }
  }

  lemma OneSection(header: seq<string>, blocks: seq<seq<string>>)
    ensures SectionLines([Section(header, blocks)]) == [""] + header + BlockLines(blocks)
  {
    assert [Section(header, blocks)][1..] == [];
  }

  lemma CustomRead(p: P.Parser, cv: CustomView, es: seq<Entry>, launch: string, n: nat)
    requires p.Valid() && CleanEntries(es) && Populated(cv, es) && Trimmed(cv.shortname) && Trimmed(LaunchValue(launch))
    ensures Reads(p, CustomLines(cv, es, launch), ParsedCustom(cv, es, launch), n)
  {
    hide P.FromLine, P.Flush, CustomHeader, Reading, CleanEntries;
    CustomHeaderRead(p, cv, launch, n + 1);
    SelectedAreClean(es, Members(cv.members));
    SectionRead(p, CustomHeader(cv, launch), P.Flush(p).collections, CustomCollection(cv, launch),
                Select(es, Members(cv.members)), n);
  }

  lemma {:induction false} CustomsRead(p: P.Parser, customs: seq<CustomView>, es: seq<Entry>, launch: string, n: nat)
    requires p.Valid() && CleanEntries(es) && CleanCustoms(customs, es) && Trimmed(LaunchValue(launch))
    ensures Reads(p, SectionLines(CustomSections(customs, es, launch)), ParsedCustoms(customs, es, launch), n)
    decreases |customs|
  {
    hide *;
    if customs == [] {
      NoSections(p, n);
      NoCustoms(es, launch);
    } else {
      var cv, rest := customs[0], customs[1..];
      FirstCustom(customs, es, launch);
      CleanCustomsHead(customs, es);
      if Populated(cv, es) {
        var lines := CustomLines(cv, es, launch);
        CustomRead(p, cv, es, launch, n);
        ReadsOk(p, lines, ParsedCustom(cv, es, launch), n);
        CustomsRead(P.FromLine(p, lines, n).value, rest, es, launch, n + |lines|);
        ReadsThen(p, lines, ParsedCustom(cv, es, launch), SectionLines(CustomSections(rest, es, launch)),
                  ParsedCustoms(rest, es, launch), n);
      } else {
        CustomsRead(p, rest, es, launch, n);
      }
    }
  }

  function CustomLines(cv: CustomView, es: seq<Entry>, launch: string): seq<string> {
    [""] + CustomHeader(cv, launch) + BlockLines(Blocks(Select(es, Members(cv.members))))
  }

  lemma NoCustoms(es: seq<Entry>, launch: string)
    ensures SectionLines(CustomSections([], es, launch)) == [] && ParsedCustoms([], es, launch) == []
  {
  }

  lemma CleanCustomsHead(customs: seq<CustomView>, es: seq<Entry>)
    requires CleanCustoms(customs, es) && customs != []
    ensures CleanCustoms(customs[1..], es) && (Populated(customs[0], es) ==> Trimmed(customs[0].shortname))
  {
  }

  lemma FirstCustom(customs: seq<CustomView>, es: seq<Entry>, launch: string)
    requires customs != []
    ensures Populated(customs[0], es) ==>
      SectionLines(CustomSections(customs, es, launch)) ==
        CustomLines(customs[0], es, launch) + SectionLines(CustomSections(customs[1..], es, launch)) &&
      ParsedCustoms(customs, es, launch) ==
        ParsedCustom(customs[0], es, launch) + ParsedCustoms(customs[1..], es, launch)
    ensures !Populated(customs[0], es) ==>
      CustomSections(customs, es, launch) == CustomSections(customs[1..], es, launch) &&
      ParsedCustoms(customs, es, launch) == ParsedCustoms(customs[1..], es, launch)
  {
    hide CustomHeader, Blocks, Select, ParsedGames;
    var sections := CustomSections(customs, es, launch);
    if Populated(customs[0], es) {
      assert sections[1..] == CustomSections(customs[1..], es, launch);
    }
  }

  lemma ReadsOk(p: P.Parser, lines: seq<string>, more: seq<P.Collection>, n: nat)
    requires p.Valid() && Reads(p, lines, more, n)
    ensures P.FromLine(p, lines, n).Ok?
  {
  }

  lemma NoSections(p: P.Parser, n: nat)
    requires p.Valid()
    ensures Reads(p, [], [], n)
  {
  }

  lemma {:induction false} SectionLinesAppend(a: seq<Section>, b: seq<Section>)
    ensures SectionLines(a + b) == SectionLines(a) + SectionLines(b)
  {
    if a == [] {
      assert a + b == b;
    } else {
      assert (a + b)[1..] == a[1..] + b;
      SectionLinesAppend(a[1..], b);
    }
  }
}
