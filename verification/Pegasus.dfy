module Pegasus {
  // The strict parser and validator for metadata.pegasus.txt
  // (pkgs/arcade-webapp/internal/pegasus/pegasus.go).

  import opened Text
  import opened Lines

  datatype Game = Game(title: string, file: string, fields: map<string, string>, multi: map<string, seq<string>>,
                       assets: map<string, string>)

  datatype Collection = Collection(title: string, shortname: string, summary: string, launch: string, games: seq<Game>)

  datatype File = File(collections: seq<Collection>)

  datatype Result<T> = Ok(value: T) | Err(line: nat)

  const PENDING_SUFFIX := "-pending"
  const ASSETS := "assets."

  predicate IsPending(shortname: string) { HasSuffix(shortname, PENDING_SUFFIX) }

  // ---------------------------------------------------------------- one line

  /** The parser's variables: f.Collections, of which cur is the last, and the open game block. */
  datatype Parser = Parser(collections: seq<Collection>, game: seq<Game>) {
    ghost predicate Valid() {
      |game| <= 1 && (game != [] ==> collections != [])
    }
  }

  predicate Blank(line: string) {
    forall k :: 0 <= k < |line| ==> line[k] == '\r'
  }

  /** Separator or comment. */
  predicate Skipped(line: string) { Blank(line) || line[0] == '#' }

  predicate Indented(line: string) { line != [] && (line[0] == ' ' || line[0] == '\t') }

  function LineKey(line: string): string
    requires ':' in line
  {
    TrimSpace(line[..IndexOf(line, ':')])
  }

  function LineValue(line: string): string
    requires ':' in line
  {
    TrimSpace(line[IndexOf(line, ':') + 1..])
  }

  function SetLast(cs: seq<Collection>, c: Collection): seq<Collection>
    requires cs != []
  {
    cs[..|cs| - 1] + [c]
  }

  /** flushGame: the open game block joins the current collection. */
  function Flush(p: Parser): (r: Parser)
    requires p.Valid()
    ensures r.Valid() && r.game == [] && |r.collections| == |p.collections|
  {
    if p.game == [] then p
    else
      var cur := p.collections[|p.collections| - 1];
      Parser(SetLast(p.collections, cur.(games := cur.games + p.game)), [])
  }

  /** The current collection still takes properties: no game block has begun. */
  predicate HeaderOpen(p: Parser) {
    p.collections != [] && p.game == [] && p.collections[|p.collections| - 1].games == []
  }

  function AddField(g: Game, key: string, value: string): Game {
    var multi :=
      if key !in g.fields then g.multi
      else if key in g.multi then g.multi[key := g.multi[key] + [value]]
      else g.multi[key := [g.fields[key], value]];
    g.(multi := multi, fields := g.fields[key := value])
  }

  /** The effect of one key: value pair. */
  function Property(p: Parser, key: string, value: string, n: nat): (r: Result<Parser>)
    requires p.Valid()
    ensures r.Ok? ==> r.value.Valid()
  {
    if key == "collection" then
      var q := Flush(p);
      Ok(Parser(q.collections + [Collection(value, "", "", "", [])], []))
    else if p.collections == [] then Err(n)
    else
      var cur := p.collections[|p.collections| - 1];
      if key == "shortname" then
        if HeaderOpen(p) then Ok(p.(collections := SetLast(p.collections, cur.(shortname := value)))) else Err(n)
      else if key == "summary" then
        if HeaderOpen(p) then Ok(p.(collections := SetLast(p.collections, cur.(summary := value)))) else Err(n)
      else if key == "launch" then
        if HeaderOpen(p) then Ok(p.(collections := SetLast(p.collections, cur.(launch := value)))) else Err(n)
      else if key == "game" then Ok(Flush(p).(game := [Game(value, "", map[], map[], map[])]))
      else if key == "file" then
        if p.game == [] then Err(n) else Ok(p.(game := [p.game[0].(file := value)]))
      else if HasPrefix(key, ASSETS) then
        if p.game == [] then Err(n)
        else Ok(p.(game := [p.game[0].(assets := p.game[0].assets[key[|ASSETS|..] := value])]))
      else if p.game == [] then Ok(p)
      else Ok(p.(game := [AddField(p.game[0], key, value)]))
  }

  function Line(p: Parser, line: string, n: nat): (r: Result<Parser>)
    requires p.Valid()
    ensures r.Ok? ==> r.value.Valid()
  {
    if Skipped(line) then Ok(p)
    else if Indented(line) || ':' !in line then Err(n)
    else Property(p, LineKey(line), LineValue(line), n)
  }

  /** The lines from number n + 1 on. */
  function FromLine(p: Parser, lines: seq<string>, n: nat): (r: Result<Parser>)
    requires p.Valid()
    ensures r.Ok? ==> r.value.Valid()
    decreases |lines|
  {
    if lines == [] then Ok(p)
    else match Line(p, lines[0], n + 1)
      case Err(k) => Err(k)
      case Ok(q) => FromLine(q, lines[1..], n + 1)
  }

  function ParseFile(raw: string): Result<File> {
    match FromLine(Parser([], []), SplitLines(raw), 0)
    case Err(n) => Err(n)
    case Ok(p) => if p.collections == [] then Err(0) else Ok(File(Flush(p).collections))
  }

  lemma {:induction false} FromLineAppend(p: Parser, a: seq<string>, b: seq<string>, n: nat)
    requires p.Valid()
    ensures FromLine(p, a + b, n) == match FromLine(p, a, n)
      case Err(k) => Err(k)
      case Ok(q) => FromLine(q, b, n + |a|)
    decreases |a|
  {
    hide Line;
    if a == [] {
      assert a + b == b;
    } else {
      assert (a + b)[1..] == a[1..] + b && (a + b)[0] == a[0];
      if Line(p, a[0], n + 1).Ok? {
        FromLineAppend(Line(p, a[0], n + 1).value, a[1..], b, n + 1);
      }
    }
  }

  /** A non-blank, uncommented line without a colon makes the whole file unparseable. */
  lemma {:induction false} ColonlessLineRefused(p: Parser, lines: seq<string>, k: nat, n: nat)
    requires p.Valid() && k < |lines| && !Skipped(lines[k]) && ':' !in lines[k]
    ensures FromLine(p, lines, n).Err?
    decreases |lines|
  {
    if k > 0 && Line(p, lines[0], n + 1).Ok? {
      ColonlessLineRefused(Line(p, lines[0], n + 1).value, lines[1..], k - 1, n + 1);
    }
  }

  // ---------------------------------------------------------------- what is refused, and what is kept

  ghost predicate HeaderKey(key: string) { key == "shortname" || key == "summary" || key == "launch" }

  ghost predicate GameKey(key: string) { key == "file" || HasPrefix(key, "assets.") }

  /** A property before any collection, a header property after a game, or a game property outside a game. */
  ghost predicate Misplaced(p: Parser, key: string) {
    key != "collection" && (
      p.collections == [] ||
      (HeaderKey(key) && (p.game != [] || p.collections[|p.collections| - 1].games != [])) ||
      (GameKey(key) && p.game == []))
  }

  ghost predicate LineRefused(p: Parser, line: string) {
    (exists k :: 0 <= k < |line| && line[k] != '\r') && line[0] != '#' && (
      line[0] == ' ' || line[0] == '\t' || ':' !in line || Misplaced(p, LineKey(line)))
  }

  lemma MisplacedExactly(p: Parser, key: string, value: string, n: nat)
    requires p.Valid()
    ensures Property(p, key, value, n).Err? <==> Misplaced(p, key)
    ensures Property(p, key, value, n).Err? ==> Property(p, key, value, n) == Err(n)
  {
    hide Flush, AddField;
    assert "assets."[0] == 'a' && "shortname"[0] == 's' && "summary"[0] == 's' && "launch"[0] == 'l';
    assert "game"[0] == 'g' && "file"[0] == 'f';
  }

  lemma LineRefusedExactly(p: Parser, line: string, n: nat)
    requires p.Valid()
    ensures Line(p, line, n).Err? <==> LineRefused(p, line)
    ensures Line(p, line, n).Err? ==> Line(p, line, n) == Err(n)
  {
    if !Skipped(line) && ':' in line {
      MisplacedExactly(p, LineKey(line), LineValue(line), n);
    }
    hide Property, Misplaced;
    assert Blank(line) <==> !exists k :: 0 <= k < |line| && line[k] != '\r';
  }

  /** Line k is the first that what was read so far forbids. */
  ghost predicate FirstRefused(p: Parser, lines: seq<string>, n: nat, k: nat)
    requires p.Valid()
  {
    k < |lines| && FromLine(p, lines[..k], n).Ok? && LineRefused(FromLine(p, lines[..k], n).value, lines[k])
  }

  /** Parsing fails exactly at the first refused line, with its number. */
  lemma {:induction false} RefusedAtFirst(p: Parser, lines: seq<string>, n: nat)
    requires p.Valid()
    ensures match FromLine(p, lines, n)
      case Ok(_) => forall k: nat :: !FirstRefused(p, lines, n, k)
      case Err(at) => n < at <= n + |lines| && FirstRefused(p, lines, n, at - n - 1)
    decreases |lines|
  {
    hide Line, LineRefused;
    if lines != [] {
      LineRefusedExactly(p, lines[0], n + 1);
      forall k: nat | 0 < k < |lines|
        ensures FromLine(p, lines[..k], n) == match Line(p, lines[0], n + 1)
                  case Err(at) => Err(at)
                  case Ok(q) => FromLine(q, lines[1..][..k - 1], n + 1)
      {
        assert lines[..k][1..] == lines[1..][..k - 1];
      }
      if Line(p, lines[0], n + 1).Ok? {
        var q := Line(p, lines[0], n + 1).value;
        RefusedAtFirst(q, lines[1..], n + 1);
        forall k: nat
          ensures FirstRefused(p, lines, n, k) <==> k > 0 && FirstRefused(q, lines[1..], n + 1, k - 1)
        {
        }
      }
    }
  }

  /** The values given for a key, in order. */
  function ValuesOf(pairs: seq<(string, string)>, key: string): seq<string> {
    if pairs == [] then []
    else
      var last := pairs[|pairs| - 1];
      ValuesOf(pairs[..|pairs| - 1], key) + if last.0 == key then [last.1] else []
  }

  /** The parser after the pairs, all taken as properties of line n. */
  ghost function Given(p: Parser, pairs: seq<(string, string)>, n: nat): (r: Result<Parser>)
    requires p.Valid()
    ensures r.Ok? ==> r.value.Valid()
  {
    if pairs == [] then Ok(p)
    else
      var last := pairs[|pairs| - 1];
      match Given(p, pairs[..|pairs| - 1], n)
      case Err(k) => Err(k)
      case Ok(q) => Property(q, last.0, last.1, n)
  }

  /** A key without a meaning of its own: a field of a game. */
  ghost predicate FieldName(key: string) {
    key != "collection" && key != "game" && !HeaderKey(key) && !GameKey(key)
  }

  ghost predicate HoldsFields(g: Game, pairs: seq<(string, string)>, key: string) {
    var values := ValuesOf(pairs, key);
    (key in g.fields <==> values != []) && (values != [] ==> g.fields[key] == values[|values| - 1]) &&
    (key in g.multi <==> |values| > 1) && (|values| > 1 ==> g.multi[key] == values)
  }

  lemma OneMoreField(g: Game, pairs: seq<(string, string)>, key: string, value: string, other: string)
    requires HoldsFields(g, pairs, key) && HoldsFields(g, pairs, other)
    ensures HoldsFields(AddField(g, key, value), pairs + [(key, value)], other)
  {
    var values := ValuesOf(pairs, other);
    assert (pairs + [(key, value)])[..|pairs|] == pairs;
    assert ValuesOf(pairs + [(key, value)], other) == values + if key == other then [value] else [];
    if |values| == 1 {
      assert values == [values[0]];
    }
  }

  /**
   Fields after a game line: the game has each key's last value, and of a repeated key all
   values in order. Outside a game they are ignored.
   */
  lemma {:induction false} FieldsExactly(p: Parser, pairs: seq<(string, string)>, n: nat)
    requires p.Valid() && p.collections != [] && forall k :: 0 <= k < |pairs| ==> FieldName(pairs[k].0)
    ensures p.game == [] ==> Given(p, pairs, n) == Ok(p)
    ensures p.game != [] && p.game[0].fields == map[] && p.game[0].multi == map[] ==>
      Given(p, pairs, n).Ok? && Given(p, pairs, n).value.collections == p.collections &&
      |Given(p, pairs, n).value.game| == 1 &&
      var g := Given(p, pairs, n).value.game[0];
      g.title == p.game[0].title && g.file == p.game[0].file && g.assets == p.game[0].assets &&
      forall key :: HoldsFields(g, pairs, key)
  {
    if pairs != [] {
      var before, last := pairs[..|pairs| - 1], pairs[|pairs| - 1];
      FieldsExactly(p, before, n);
      if p.game != [] && p.game[0].fields == map[] && p.game[0].multi == map[] {
        var g := Given(p, before, n).value.game[0];
        assert pairs == before + [(last.0, last.1)];
        forall key
          ensures HoldsFields(AddField(g, last.0, last.1), pairs, key)
        {
          OneMoreField(g, before, last.0, last.1, key);
        }
      }
    }
  }

  // ---------------------------------------------------------------- Parse

  method Parse(raw: string) returns (r: Result<File>)
    ensures r == ParseFile(raw)
  {
    var collections: seq<Collection> := [];
    var game: seq<Game> := [];
    var lines := SplitLines(raw);
    for n := 0 to |lines|
      invariant Parser(collections, game).Valid()
      invariant FromLine(Parser([], []), lines, 0) == FromLine(Parser(collections, game), lines[n..], n)
    {
      var line := lines[n];
      assert lines[n..] == [line] + lines[n + 1..];
      if Skipped(line) {
        continue;
      }
      if Indented(line) || ':' !in line {
        return Err(n + 1);
      }
      var key, value := LineKey(line), LineValue(line);
      var refused;
      collections, game, refused := Assign(collections, game, key, value, n + 1);
      if refused {
        return Err(n + 1);
      }
    }
    assert lines[|lines|..] == [];
    if collections == [] {
      return Err(0);
    }
    if game != [] {
      var cur := collections[|collections| - 1];
      collections := SetLast(collections, cur.(games := cur.games + game));
    }
    r := Ok(File(collections));
  }

  /** The second switch of Parse: what one key: value line does to the parser's variables. */
  method Assign(collections0: seq<Collection>, game0: seq<Game>, key: string, value: string, n: nat)
    returns (collections: seq<Collection>, game: seq<Game>, refused: bool)
    requires Parser(collections0, game0).Valid()
    ensures var r := Property(Parser(collections0, game0), key, value, n);
      if refused then r == Err(n) else r == Ok(Parser(collections, game))
  {
    collections, game, refused := collections0, game0, false;
    if key == "collection" {
      if game != [] {
        var cur := collections[|collections| - 1];
        collections, game := SetLast(collections, cur.(games := cur.games + game)), [];
      }
      collections := collections + [Collection(value, "", "", "", [])];
      return;
    }
    if collections == [] {
      refused := true;
      return;
    }
    var last := |collections| - 1;
    var cur := collections[last];
    if key == "shortname" || key == "summary" || key == "launch" {
      if game != [] || cur.games != [] {
        refused := true;
        return;
      }
      cur := if key == "shortname" then cur.(shortname := value)
             else if key == "summary" then cur.(summary := value)
             else cur.(launch := value);
      collections := SetLast(collections, cur);
    } else if key == "game" {
      if game != [] {
        collections := SetLast(collections, cur.(games := cur.games + game));
      }
      game := [Game(value, "", map[], map[], map[])];
    } else if key == "file" {
      if game == [] {
        refused := true;
        return;
      }
      game := [game[0].(file := value)];
    } else if HasPrefix(key, ASSETS) {
      if game == [] {
        refused := true;
        return;
      }
      game := [game[0].(assets := game[0].assets[key[|ASSETS|..] := value])];
    } else if game != [] {
      var g := game[0];
      if key in g.fields {
        if key !in g.multi {
          g := g.(multi := g.multi[key := [g.fields[key]]]);
        }
        assert [g.fields[key]] + [value] == [g.fields[key], value];
        g := g.(multi := g.multi[key := g.multi[key] + [value]]);
      }
      assert g.multi == AddField(game[0], key, value).multi;
      game := [g.(fields := g.fields[key := value])];
    }
  }

  // ---------------------------------------------------------------- Validate

  /** Every block names a file and no file is listed twice. */
  ghost predicate GamesOk(games: seq<Game>) {
    (forall k :: 0 <= k < |games| ==> games[k].file != "") &&
    forall j, k :: 0 <= j < k < |games| ==> games[j].file != games[k].file
  }

  /** Anything listed is launchable, unless the collection is a pending one. */
  ghost predicate Launchable(c: Collection) {
    c.launch != "" || IsPending(c.shortname) || c.games == []
  }

  ghost predicate ShortnamesDistinct(cs: seq<Collection>) {
    forall j, k :: 0 <= j < k < |cs| ==> cs[j].shortname == "" || cs[j].shortname != cs[k].shortname
  }

  ghost predicate ValidFile(f: File) {
    f.collections != [] && ShortnamesDistinct(f.collections) &&
    forall k :: 0 <= k < |f.collections| ==> Launchable(f.collections[k]) && GamesOk(f.collections[k].games)
  }

  method Validate(f: File) returns (ok: bool)
    ensures ok <==> ValidFile(f)
  {
    var cs := f.collections;
    var seenShort: set<string> := {};
    for ci := 0 to |cs|
      invariant ShortnamesDistinct(cs[..ci])
      invariant seenShort == set k | 0 <= k < ci && cs[k].shortname != "" :: cs[k].shortname
      invariant forall k :: 0 <= k < ci ==> Launchable(cs[k]) && GamesOk(cs[k].games)
    {
      var col := cs[ci];
      if col.shortname != "" {
        if col.shortname in seenShort {
          return false;
        }
        seenShort := seenShort + {col.shortname};
      }
      if col.launch == "" && !IsPending(col.shortname) && |col.games| > 0 {
        return false;
      }
      var fine := ValidateGames(col.games);
      if !fine {
        return false;
      }
    }
    assert cs[..|cs|] == cs;
    ok := cs != [];
  }

  method ValidateGames(games: seq<Game>) returns (ok: bool)
    ensures ok <==> GamesOk(games)
  {
    var seen: set<string> := {};
    for k := 0 to |games|
      invariant GamesOk(games[..k])
      invariant seen == set j | 0 <= j < k :: games[j].file
    {
      assert games[..k + 1] == games[..k] + [games[k]];
      if games[k].file == "" || games[k].file in seen {
        return false;
      }
      seen := seen + {games[k].file};
    }
    assert games[..|games|] == games;
    ok := true;
  }
}
