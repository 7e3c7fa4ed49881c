/**
 The launcher-file printer (renderSystem, gameBlock and assemble of
 pkgs/arcade-webapp/internal/generate/generate.go).
 */
module LauncherFile {
  import opened Options
  import opened Text
  import opened Lines

  datatype System = System(key: string, collection: string, core: string, emulator: string)

  datatype GameMeta = GameMeta(relPath: string, description: string, release: string, developer: string,
                               publisher: string, genre: string, rating: string)

  /** One media reference: the file's stem and its path below the system directory. */
  datatype Asset = Asset(stem: string, path: string)

  /** A visible game with what the filesystem says about it: its artwork and whether its file is complete. */
  datatype Entry = Entry(meta: GameMeta, assets: seq<Asset>, playable: bool)

  datatype CustomView = CustomView(title: string, shortname: string, summary: string, members: set<string>)

  datatype Section = Section(header: seq<string>, blocks: seq<seq<string>>)

  const PENDING_MARKER := "# jupiter-pending-section"
  const CUSTOM_MARKER := "# jupiter-custom-collection"
  const MANAGED := " (managed by arcade-webapp)"
  const PENDING_LINE := PENDING_MARKER + MANAGED
  const CUSTOM_LINE := CUSTOM_MARKER + MANAGED
  const PENDING_SUMMARY := "Still downloading or incomplete - listed but not yet playable."

  // ---------------------------------------------------------------- names

  function DropTrailingSlashes(p: string): string {
    if p != "" && p[|p| - 1] == '/' then DropTrailingSlashes(p[..|p| - 1]) else p
  }

  /** filepath.Base. */
  function BaseName(path: string): string {
    if path == "" then "."
    else
      var p := DropTrailingSlashes(path);
      if p == "" then "/" else p[LastIndexOf(p, '/') + 1..]
  }

  /** A file name without its filepath.Ext. */
  function Stem(name: string): string {
    var i := LastIndexOf(name, '.');
    if i < 0 then name else name[..i]
  }

  function GameTitle(relPath: string): string {
    var base := BaseName(relPath);
    var title := Sanitize(Stem(base));
    if title == "" then Sanitize(base) else title
  }

  lemma StemBefore(a: string, b: string)
    requires '.' !in b
    ensures Stem(a + "." + b) == a
  {
    var name := a + "." + b;
    assert name[|a|] == '.';
  }

  lemma BaseAfterSlash(before: string, last: string)
    requires last != "" && '/' !in last
    ensures BaseName(before + "/" + last) == last
  {
    var path := before + "/" + last;
    assert path[|path| - 1] == last[|last| - 1];
    assert path[|before|] == '/' && path[|before| + 1..] == last;
  }

  /** The title of a game file, wherever it lies: its name without the extension, or with it when nothing is left. */
  lemma TitleOfFile(dir: string, stem: string, ext: string)
    requires '/' !in stem && '/' !in ext && '.' !in ext
    ensures Sanitize(stem) != "" ==>
      GameTitle(dir + "/" + (stem + "." + ext)) == Sanitize(stem) == GameTitle(stem + "." + ext)
    ensures Sanitize(stem) == "" ==> GameTitle(dir + "/" + (stem + "." + ext)) == Sanitize(stem + "." + ext)
  {
    hide Sanitize;
    var name := stem + "." + ext;
    assert '/' !in name && name != "";
    BaseAfterSlash(dir, name);
    StemBefore(stem, ext);
    assert BaseName(name) == name;
  }

  ghost predicate FirstHere(values: seq<string>, i: nat) {
    i < |values| && forall j :: 0 <= j < i ==> values[j] != values[i]
  }

  /** The positions at which a value occurs for the first time, in order. */
  method FirstOccurrences(values: seq<string>) returns (picks: seq<nat>)
    ensures forall j, k :: 0 <= j < k < |picks| ==> picks[j] < picks[k]
    ensures forall i: nat :: i in picks <==> FirstHere(values, i)
  {
    picks := [];
    var seen: set<string> := {};
    for i := 0 to |values|
      invariant forall j :: 0 <= j < i ==> values[j] in seen
      invariant forall s :: s in seen ==> exists j :: 0 <= j < i && values[j] == s
      invariant forall j, k :: 0 <= j < k < |picks| ==> picks[j] < picks[k]
      invariant forall k :: 0 <= k < |picks| ==> picks[k] < i
      invariant forall j: nat :: j in picks <==> j < i && FirstHere(values, j)
    {
      if values[i] !in seen {
        seen := seen + {values[i]};
        picks := picks + [i];
      }
    }
  }

  /** mediaAssets on the directory's regular files: sorted, the first file of each stem. */
  method MediaAssets(names: seq<string>, baseNoExt: string) returns (assets: seq<Asset>)
    ensures IsMediaAssets(names, baseNoExt, assets)
  {
    var sorted := SortByKey(names, (n: string) => n);
    var stems := seq(|sorted|, i requires 0 <= i < |sorted| => Stem(sorted[i]));
    var picks := FirstOccurrences(stems);
    assert forall j :: 0 <= j < |picks| ==> picks[j] in picks;
    assets := seq(|picks|, k requires 0 <= k < |picks| => AssetOf(sorted[picks[k]], baseNoExt));
    PicksAreFirst(names, sorted, stems, picks, assets, baseNoExt);
  }

  function AssetOf(name: string, baseNoExt: string): Asset {
    Asset(Stem(name), "media/" + baseNoExt + "/" + name)
  }

  /** The asset is the one of the alphabetically first file with its stem. */
  ghost predicate IsFirstOfStem(names: seq<string>, baseNoExt: string, a: Asset) {
    exists name :: name in names && a == AssetOf(name, baseNoExt) && FirstWithStem(names, name)
  }

  ghost predicate FirstWithStem(names: seq<string>, name: string) {
    forall other :: other in names && Stem(other) == Stem(name) ==> AtMost(name, other)
  }

  /** One asset for each stem, its alphabetically first file, in the order of the files. */
  ghost predicate IsMediaAssets(names: seq<string>, baseNoExt: string, assets: seq<Asset>) {
    (forall j, k :: 0 <= j < k < |assets| ==> assets[j].stem != assets[k].stem) &&
    (forall a :: a in assets <==> IsFirstOfStem(names, baseNoExt, a)) &&
    SortedBy(assets, (a: Asset) => a.path)
  }

  lemma {:induction false} PrefixKeepsOrder(p: string, a: string, b: string)
    ensures AtMost(a, b) ==> AtMost(p + a, p + b)
  {
    if p == "" {
      assert p + a == a && p + b == b;
    } else {
      assert (p + a)[1..] == p[1..] + a && (p + b)[1..] == p[1..] + b;
      PrefixKeepsOrder(p[1..], a, b);
    }
  }

  lemma PicksAreFirst(names: seq<string>, sorted: seq<string>, stems: seq<string>, picks: seq<nat>,
                      assets: seq<Asset>, baseNoExt: string)
    requires multiset(sorted) == multiset(names) && SortedBy(sorted, (n: string) => n)
    requires |stems| == |sorted| && forall i :: 0 <= i < |sorted| ==> stems[i] == Stem(sorted[i])
    requires forall j, k :: 0 <= j < k < |picks| ==> picks[j] < picks[k]
    requires forall i: nat :: i in picks <==> FirstHere(stems, i)
    requires |assets| == |picks|
    requires forall k :: 0 <= k < |picks| ==> picks[k] < |sorted| && assets[k] == AssetOf(sorted[picks[k]], baseNoExt)
    ensures IsMediaAssets(names, baseNoExt, assets)
  {
    forall j, k | 0 <= j < k < |assets|
      ensures assets[j].stem != assets[k].stem && AtMost(assets[j].path, assets[k].path)
    {
      assert picks[k] in picks;
      PrefixKeepsOrder("media/" + baseNoExt + "/", sorted[picks[j]], sorted[picks[k]]);
    }
    forall k | 0 <= k < |assets|
      ensures IsFirstOfStem(names, baseNoExt, assets[k])
    {
      assert picks[k] in picks;
      FirstOfStem(names, sorted, stems, picks[k]);
      assert sorted[picks[k]] in multiset(names);
    }
    forall a | IsFirstOfStem(names, baseNoExt, a)
      ensures a in assets
    {
      var name :| name in names && a == AssetOf(name, baseNoExt) && FirstWithStem(names, name);
      var i := FirstIndexWithStem(names, sorted, stems, name);
      var k :| 0 <= k < |picks| && picks[k] == i;
      assert assets[k] == a;
    }
  }

  lemma FirstOfStem(names: seq<string>, sorted: seq<string>, stems: seq<string>, i: nat)
    requires multiset(sorted) == multiset(names) && SortedBy(sorted, (n: string) => n) && i < |sorted|
    requires |stems| == |sorted| && forall i :: 0 <= i < |sorted| ==> stems[i] == Stem(sorted[i])
    requires FirstHere(stems, i)
    ensures FirstWithStem(names, sorted[i])
  {
    forall other | other in names && Stem(other) == Stem(sorted[i])
      ensures AtMost(sorted[i], other)
    {
      assert other in multiset(sorted);
      var k :| 0 <= k < |sorted| && sorted[k] == other;
      BeforeTotal(other, other);
    }
  }

  lemma FirstIndexWithStem(names: seq<string>, sorted: seq<string>, stems: seq<string>, name: string) returns (i: nat)
    requires multiset(sorted) == multiset(names) && SortedBy(sorted, (n: string) => n)
    requires |stems| == |sorted| && forall i :: 0 <= i < |sorted| ==> stems[i] == Stem(sorted[i])
    requires name in names && FirstWithStem(names, name)
    ensures i < |sorted| && sorted[i] == name && FirstHere(stems, i)
  {
    assert name in multiset(sorted);
    var at :| 0 <= at < |sorted| && sorted[at] == name;
    i := at;
    while exists k :: 0 <= k < i && stems[k] == stems[i]
      invariant 0 <= i < |sorted| && sorted[i] == name
      decreases i
    {
      var k :| 0 <= k < i && stems[k] == stems[i];
      assert sorted[k] in multiset(names);
      assert AtMost(name, sorted[k]) && AtMost(sorted[k], sorted[i]);
      BeforeTotal(name, sorted[k]);
      i := k;
    }
  }

  // ---------------------------------------------------------------- blocks

  function Prop(key: string, value: string): string { key + ": " + value }

  /** One optional line of a game block. */
  function FieldLine(key: string, value: string): seq<string> {
    var v := Sanitize(value);
    if v == "" then [] else [Prop(key, v)]
  }

  function AssetLines(assets: seq<Asset>): seq<string> {
    if assets == [] then [] else [Prop("assets." + assets[0].stem, assets[0].path)] + AssetLines(assets[1..])
  }

  function GameLines(e: Entry): seq<string> {
    var m := e.meta;
    [Prop("game", GameTitle(m.relPath)), Prop("file", Sanitize(m.relPath))] +
    FieldLine("description", m.description) + FieldLine("release", m.release) + FieldLine("developer", m.developer) +
    FieldLine("publisher", m.publisher) + FieldLine("genre", m.genre) + FieldLine("rating", m.rating) +
    AssetLines(e.assets)
  }

  function Blocks(es: seq<Entry>): seq<seq<string>> {
    if es == [] then [] else [GameLines(es[0])] + Blocks(es[1..])
  }

  /** The entries one collection lists. */
  datatype Listing = Main | Pending | Members(paths: set<string>)

  predicate Lists(l: Listing, e: Entry) {
    match l
    case Main => e.playable
    case Pending => !e.playable
    case Members(paths) => e.meta.relPath in paths && e.playable
  }

  function Select(es: seq<Entry>, l: Listing): seq<Entry> {
    if es == [] then [] else (if Lists(l, es[0]) then [es[0]] else []) + Select(es[1..], l)
  }

  function LaunchCommand(sys: System): Option<string> {
    if sys.core != "" && sys.core != "-" then Some("jupiter-retroarch -L " + sys.core)
    else if sys.emulator != "" then Some("jupiter-" + sys.emulator)
    else None
  }

  function LaunchValue(launch: string): string { launch + " \"{file.path}\"" }

  function MainHeader(sys: System, launch: string): seq<string> {
    [Prop("collection", Sanitize(sys.collection)), Prop("shortname", sys.key), Prop("launch", LaunchValue(launch))]
  }

  function PendingHeader(sys: System): seq<string> {
    [PENDING_LINE, Prop("collection", Sanitize(sys.collection) + " (Pending)"),
     Prop("shortname", sys.key + "-pending"), Prop("summary", PENDING_SUMMARY)]
  }

  function CustomHeader(cv: CustomView, launch: string): seq<string> {
    [CUSTOM_LINE, Prop("collection", Sanitize(cv.title)), Prop("shortname", cv.shortname)] +
    (if Sanitize(cv.summary) == "" then [] else [Prop("summary", Sanitize(cv.summary))]) +
    [Prop("launch", LaunchValue(launch))]
  }

  /** A custom collection's section; nothing when it has no playable member here. */
  function CustomSection(cv: CustomView, es: seq<Entry>, launch: string): seq<Section> {
    var members := Select(es, Members(cv.members));
    if members == [] then [] else [Section(CustomHeader(cv, launch), Blocks(members))]
  }

  function CustomSections(customs: seq<CustomView>, es: seq<Entry>, launch: string): seq<Section> {
    if customs == [] then [] else CustomSection(customs[0], es, launch) + CustomSections(customs[1..], es, launch)
  }

  function PendingSections(sys: System, es: seq<Entry>): seq<Section> {
    var pending := Select(es, Pending);
    if pending == [] then [] else [Section(PendingHeader(sys), Blocks(pending))]
  }

  // ---------------------------------------------------------------- lines of a file

  function BlockLines(blocks: seq<seq<string>>): seq<string> {
    if blocks == [] then [] else [""] + blocks[0] + BlockLines(blocks[1..])
  }

  function SectionLines(sections: seq<Section>): seq<string> {
    if sections == [] then []
    else [""] + sections[0].header + BlockLines(sections[0].blocks) + SectionLines(sections[1..])
  }

  function FileLines(header: seq<string>, main: seq<seq<string>>, sections: seq<Section>): seq<string> {
    header + BlockLines(main) + SectionLines(sections)
  }

  function SystemLines(sys: System, launch: string, es: seq<Entry>, customs: seq<CustomView>): seq<string> {
    FileLines(MainHeader(sys, launch), Blocks(Select(es, Main)),
              PendingSections(sys, es) + CustomSections(customs, es, launch))
  }

  /** The bytes renderSystem returns; None when no launch command is mapped. */
  function Rendered(sys: System, es: seq<Entry>, customs: seq<CustomView>): Option<string> {
    match LaunchCommand(sys)
    case None => None
    case Some(launch) => Some(JoinLines(SystemLines(sys, launch, es, customs) + [""]))
  }

  // ---------------------------------------------------------------- the methods

  /** addField. */
  method AddField(block: seq<string>, key: string, value: string) returns (block': seq<string>)
    ensures block' == block + FieldLine(key, value)
  {
    var v := SanitizeValue(value);
    block' := if v != "" then block + [Prop(key, v)] else block;
  }

  method AddAssets(block: seq<string>, assets: seq<Asset>) returns (block': seq<string>)
    ensures block' == block + AssetLines(assets)
  {
    block' := block;
    for k := 0 to |assets|
      invariant block' + AssetLines(assets[k..]) == block + AssetLines(assets)
    {
      assert assets[k..] == [assets[k]] + assets[k + 1..];
      block' := block' + [Prop("assets." + assets[k].stem, assets[k].path)];
    }
    assert assets[|assets|..] == [];
  }

  method GameBlock(e: Entry) returns (block: seq<string>)
    ensures block == GameLines(e)
  {
    var m := e.meta;
    var file := SanitizeValue(m.relPath);
    block := [Prop("game", GameTitle(m.relPath)), Prop("file", file)];
    block := AddField(block, "description", m.description);
    block := AddField(block, "release", m.release);
    block := AddField(block, "developer", m.developer);
    block := AddField(block, "publisher", m.publisher);
    block := AddField(block, "genre", m.genre);
    block := AddField(block, "rating", m.rating);
    block := AddAssets(block, e.assets);
  }

  lemma {:induction false} BlockLinesSnoc(blocks: seq<seq<string>>, b: seq<string>)
    ensures BlockLines(blocks + [b]) == BlockLines(blocks) + ([""] + b)
  {
    if blocks == [] {
      assert blocks + [b] == [b] && [b][1..] == [];
    } else {
      assert (blocks + [b])[1..] == blocks[1..] + [b];
      BlockLinesSnoc(blocks[1..], b);
      Assoc([""] + blocks[0], BlockLines(blocks[1..]), [""] + b);
    }
  }

  lemma {:induction false} SectionLinesSnoc(sections: seq<Section>, s: Section)
    ensures SectionLines(sections + [s]) == SectionLines(sections) + ([""] + s.header + BlockLines(s.blocks))
  {
    if sections == [] {
      assert sections + [s] == [s] && [s][1..] == [];
    } else {
      var head := [""] + sections[0].header + BlockLines(sections[0].blocks);
      assert (sections + [s])[1..] == sections[1..] + [s];
      SectionLinesSnoc(sections[1..], s);
      Assoc(head, SectionLines(sections[1..]), [""] + s.header + BlockLines(s.blocks));
    }
  }

  /** A blank line and a block appended to a text of lines. */
  lemma JoinBlock(lines: seq<string>, block: seq<string>)
    requires lines != [] && block != []
    ensures JoinLines(lines) + "\n\n" + JoinLines(block) == JoinLines(lines + ([""] + block))
  {
    JoinAppend(lines, [""] + block, [NL]);
    JoinAppend([""], block, [NL]);
    assert JoinLines(lines) + [NL] + ("" + [NL] + JoinLines(block)) == JoinLines(lines) + "\n\n" + JoinLines(block);
  }

  /** The line at which block k starts: one blank line goes before each block. */
  function Offset(blocks: seq<seq<string>>, k: nat): nat
    requires k <= |blocks|
  {
    if k == 0 then 0 else Offset(blocks, k - 1) + 1 + |blocks[k - 1]|
  }

  lemma {:induction false} OffsetTail(blocks: seq<seq<string>>, k: nat)
    requires 0 < k <= |blocks|
    ensures Offset(blocks, k) == 1 + |blocks[0]| + Offset(blocks[1..], k - 1)
  {
    if k > 1 {
      OffsetTail(blocks, k - 1);
    }
  }

  /** The block stands whole behind a blank line at this line. */
  ghost predicate StandsAt(lines: seq<string>, at: nat, block: seq<string>) {
    at + |block| < |lines| && lines[at] == "" && forall i :: 0 <= i < |block| ==> lines[at + 1 + i] == block[i]
  }

  lemma StandsBehind(block: seq<string>, first: seq<string>, lines: seq<string>, at: nat)
    requires StandsAt(lines, at, block)
    ensures StandsAt(first + lines, |first| + at, block)
  {
    assert forall i :: 0 <= i < |lines| ==> (first + lines)[|first| + i] == lines[i];
    assert forall i :: 0 <= i < |block| ==> (first + lines)[|first| + (at + 1 + i)] == block[i];
  }

  /** Every block stands whole behind its blank line, and nothing else is printed. */
  lemma {:induction false} BlockAt(blocks: seq<seq<string>>, k: nat)
    requires k <= |blocks|
    ensures |BlockLines(blocks)| == Offset(blocks, |blocks|)
    ensures k < |blocks| ==> StandsAt(BlockLines(blocks), Offset(blocks, k), blocks[k])
  {
    if blocks != [] {
      var rest := BlockLines(blocks[1..]);
      OffsetTail(blocks, |blocks|);
      BlockAt(blocks[1..], if k > 0 then k - 1 else 0);
      if 0 < k < |blocks| {
        hide StandsAt;
        OffsetTail(blocks, k);
        StandsBehind(blocks[k], [""] + blocks[0], rest, Offset(blocks[1..], k - 1));
      }
    }
  }

  ghost predicate NoEmptyBlock(blocks: seq<seq<string>>) {
    forall k :: 0 <= k < |blocks| ==> blocks[k] != []
  }

  /** The emit closure of assemble. */
  method EmitBlocks(text: string, blocks: seq<seq<string>>, ghost lines: seq<string>) returns (text': string)
    requires text == JoinLines(lines) && lines != [] && NoEmptyBlock(blocks)
    ensures text' == JoinLines(lines + BlockLines(blocks))
  {
    text' := text;
    assert lines + BlockLines(blocks[..0]) == lines;
    for k := 0 to |blocks|
      invariant text' == JoinLines(lines + BlockLines(blocks[..k]))
    {
      assert blocks[..k + 1] == blocks[..k] + [blocks[k]];
      BlockLinesSnoc(blocks[..k], blocks[k]);
      JoinBlock(lines + BlockLines(blocks[..k]), blocks[k]);
      Assoc(lines, BlockLines(blocks[..k]), [""] + blocks[k]);
      text' := text' + "\n\n" + JoinLines(blocks[k]);
    }
    assert blocks[..|blocks|] == blocks;
  }

  ghost predicate SectionsPrintable(sections: seq<Section>) {
    forall k :: 0 <= k < |sections| ==> sections[k].header != [] && NoEmptyBlock(sections[k].blocks)
  }

  method Assemble(header: seq<string>, main: seq<seq<string>>, sections: seq<Section>) returns (text: string)
    requires header != [] && NoEmptyBlock(main) && SectionsPrintable(sections)
    ensures text == JoinLines(FileLines(header, main, sections) + [""])
  {
    text := EmitBlocks(JoinLines(header), main, header);
    ghost var body := header + BlockLines(main);
    assert body + SectionLines(sections[..0]) == body;
    for k := 0 to |sections|
      invariant text == JoinLines(body + SectionLines(sections[..k]))
    {
      assert sections[..k + 1] == sections[..k] + [sections[k]];
      ghost var lines := body + SectionLines(sections[..k]);
      SectionLinesSnoc(sections[..k], sections[k]);
      JoinBlock(lines, sections[k].header);
      text := EmitBlocks(text + "\n\n" + JoinLines(sections[k].header), sections[k].blocks,
                         lines + ([""] + sections[k].header));
      Assoc(lines, [""] + sections[k].header, BlockLines(sections[k].blocks));
      Assoc(body, SectionLines(sections[..k]), [""] + sections[k].header + BlockLines(sections[k].blocks));
    }
    assert sections[..|sections|] == sections;
    JoinAppend(body + SectionLines(sections), [""], [NL]);
    text := text + "\n";
  }

  lemma GameLinesNotEmpty(e: Entry)
    ensures GameLines(e) != []
  {
    assert GameLines(e)[0] == Prop("game", GameTitle(e.meta.relPath));
  }

  lemma {:induction false} BlocksNotEmpty(es: seq<Entry>)
    ensures NoEmptyBlock(Blocks(es)) && |Blocks(es)| == |es|
  {
    hide GameLines;
    if es != [] {
      BlocksNotEmpty(es[1..]);
      GameLinesNotEmpty(es[0]);
    }
  }

  lemma {:induction false} SelectSnoc(es: seq<Entry>, e: Entry, l: Listing)
    ensures Select(es + [e], l) == Select(es, l) + (if Lists(l, e) then [e] else [])
  {
    if es == [] {
      assert es + [e] == [e] && [e][1..] == [];
    } else {
      assert (es + [e])[1..] == es[1..] + [e];
      SelectSnoc(es[1..], e, l);
      Assoc(if Lists(l, es[0]) then [es[0]] else [], Select(es[1..], l), if Lists(l, e) then [e] else []);
    }
  }

  lemma {:induction false} BlocksSnoc(es: seq<Entry>, e: Entry)
    ensures Blocks(es + [e]) == Blocks(es) + [GameLines(e)]
  {
    hide GameLines;
    if es == [] {
      assert es + [e] == [e] && [e][1..] == [];
    } else {
      assert (es + [e])[1..] == es[1..] + [e];
      BlocksSnoc(es[1..], e);
      Assoc([GameLines(es[0])], Blocks(es[1..]), [GameLines(e)]);
    }
  }

  /** One step of a loop that collects the blocks of the listed entries. */
  lemma CollectOne(es: seq<Entry>, k: nat, l: Listing)
    requires k < |es|
    ensures Blocks(Select(es[..k + 1], l)) ==
      Blocks(Select(es[..k], l)) + (if Lists(l, es[k]) then [GameLines(es[k])] else [])
  {
    hide GameLines;
    assert es[..k + 1] == es[..k] + [es[k]];
    SelectSnoc(es[..k], es[k], l);
    if Lists(l, es[k]) {
      BlocksSnoc(Select(es[..k], l), es[k]);
    } else {
      assert Select(es[..k], l) + [] == Select(es[..k], l);
    }
  }

  /** The first loop of renderSystem: a block per game, split by the completeness sniff. */
  method SplitByCompleteness(es: seq<Entry>)
    returns (blocks: seq<seq<string>>, main: seq<seq<string>>, pending: seq<seq<string>>)
    ensures |blocks| == |es| && forall i :: 0 <= i < |es| ==> blocks[i] == GameLines(es[i])
    ensures main == Blocks(Select(es, Main)) && pending == Blocks(Select(es, Pending))
  {
    hide GameLines;
    blocks, main, pending := [], [], [];
    for i := 0 to |es|
      invariant |blocks| == i && forall k :: 0 <= k < i ==> blocks[k] == GameLines(es[k])
      invariant main == Blocks(Select(es[..i], Main)) && pending == Blocks(Select(es[..i], Pending))
    {
      var block := GameBlock(es[i]);
      blocks := blocks + [block];
      CollectOne(es, i, Main);
      CollectOne(es, i, Pending);
      if es[i].playable {
        main := main + [block];
      } else {
        pending := pending + [block];
      }
    }
    assert es[..|es|] == es;
  }

  /** idx: the positions listed, which are those of the playable games the collection names. */
  method MemberBlocks(es: seq<Entry>, blocks: seq<seq<string>>, cv: CustomView)
    returns (members: seq<seq<string>>, ghost idx: seq<nat>)
    requires |blocks| == |es| && forall i :: 0 <= i < |es| ==> blocks[i] == GameLines(es[i])
    ensures members == Blocks(Select(es, Members(cv.members)))
    ensures Increasing(idx)
    ensures forall i: nat :: i in idx <==> i < |es| && es[i].playable && es[i].meta.relPath in cv.members
    ensures |members| == |idx| && forall k :: 0 <= k < |idx| ==> idx[k] in idx && members[k] == blocks[idx[k]]
  {
    hide GameLines;
    members, idx := [], [];
    for i := 0 to |es|
      invariant members == Blocks(Select(es[..i], Members(cv.members)))
      invariant Increasing(idx)
      invariant forall j: nat :: j in idx <==> j < i && es[j].playable && es[j].meta.relPath in cv.members
      invariant |members| == |idx| && forall k :: 0 <= k < |idx| ==> idx[k] in idx && members[k] == blocks[idx[k]]
    {
      CollectOne(es, i, Members(cv.members));
      if es[i].meta.relPath in cv.members && es[i].playable {
        members := members + [blocks[i]];
        idx := idx + [i];
      }
    }
    assert es[..|es|] == es;
  }

  ghost predicate Increasing(idx: seq<nat>) {
    forall j, k :: 0 <= j < k < |idx| ==> idx[j] < idx[k]
  }

  /** The selected entries are those at the positions idx. */
  ghost predicate SelectedAt(es: seq<Entry>, picked: seq<Entry>, idx: seq<nat>) {
    Increasing(idx) && |picked| == |idx| && forall k :: 0 <= k < |idx| ==> idx[k] < |es| && picked[k] == es[idx[k]]
  }

  ghost predicate ListedBefore(es: seq<Entry>, l: Listing, idx: seq<nat>, n: nat)
    requires n <= |es|
  {
    forall i: nat :: i in idx <==> i < n && Lists(l, es[i])
  }

  lemma OneMoreListed(es: seq<Entry>, l: Listing, idx: seq<nat>, n: nat)
    requires n < |es| && ListedBefore(es, l, idx, n)
    ensures ListedBefore(es, l, if Lists(l, es[n]) then idx + [n] else idx, n + 1)
  {
    hide Lists;
  }

  lemma OneMoreSelected(es: seq<Entry>, picked: seq<Entry>, idx: seq<nat>, n: nat)
    requires n < |es| && SelectedAt(es, picked, idx) && forall i :: i in idx ==> i < n
    ensures SelectedAt(es, picked + [es[n]], idx + [n])
  {
    assert forall k :: 0 <= k < |idx| ==> idx[k] in idx;
  }

  lemma SelectPositions(es: seq<Entry>, l: Listing) returns (idx: seq<nat>)
    ensures SelectedAt(es, Select(es, l), idx) && ListedBefore(es, l, idx, |es|)
  {
    idx := [];
    for i := 0 to |es|
      invariant SelectedAt(es, Select(es[..i], l), idx) && ListedBefore(es, l, idx, i)
    {
      hide Select, Lists, SelectedAt;
      assert es[..i + 1] == es[..i] + [es[i]];
      SelectSnoc(es[..i], es[i], l);
      OneMoreListed(es, l, idx, i);
      if Lists(l, es[i]) {
        OneMoreSelected(es, Select(es[..i], l), idx, i);
        idx := idx + [i];
      } else {
        assert Select(es[..i], l) + [] == Select(es[..i], l);
      }
    }
    assert es[..|es|] == es;
  }

  /** What each kind of collection lists, by position. */
  lemma SelectExactly(es: seq<Entry>, l: Listing) returns (idx: seq<nat>)
    ensures SelectedAt(es, Select(es, l), idx)
    ensures l.Main? ==> forall i: nat :: i in idx <==> i < |es| && es[i].playable
    ensures l.Pending? ==> forall i: nat :: i in idx <==> i < |es| && !es[i].playable
    ensures l.Members? ==> forall i: nat :: i in idx <==> i < |es| && es[i].playable && es[i].meta.relPath in l.paths
  {
    idx := SelectPositions(es, l);
  }

  method CustomHeaderLines(cv: CustomView, launch: string) returns (header: seq<string>)
    ensures header == CustomHeader(cv, launch) && header != []
  {
    hide Sanitize, Prop, LaunchValue;
    var title := SanitizeValue(cv.title);
    var summary := SanitizeValue(cv.summary);
    header := [CUSTOM_LINE, Prop("collection", title), Prop("shortname", cv.shortname)];
    assert header + [] == header;
    if summary != "" {
      header := header + [Prop("summary", summary)];
    }
    header := header + [Prop("launch", LaunchValue(launch))];
  }

  lemma {:induction false} CustomSectionsSnoc(customs: seq<CustomView>, cv: CustomView, es: seq<Entry>, launch: string)
    ensures CustomSections(customs + [cv], es, launch) ==
      CustomSections(customs, es, launch) + CustomSection(cv, es, launch)
  {
    if customs == [] {
      assert customs + [cv] == [cv] && [cv][1..] == [];
    } else {
      assert (customs + [cv])[1..] == customs[1..] + [cv];
      CustomSectionsSnoc(customs[1..], cv, es, launch);
      Assoc(CustomSection(customs[0], es, launch), CustomSections(customs[1..], es, launch),
            CustomSection(cv, es, launch));
    }
  }

  /** renderSystem's outcome counters. */
  datatype Counts = Counts(games: nat, pending: nat, collections: nat)

  method RenderSystem(sys: System, es: seq<Entry>, customs: seq<CustomView>)
    returns (text: Option<string>, counts: Counts)
    ensures text == Rendered(sys, es, customs)
    ensures text.Some? ==> counts.games + counts.pending == |es|
  {
    hide GameLines, CustomSections, Select, Blocks, Sanitize;
    var launch := LaunchCommand(sys);
    if launch.None? {
      return None, Counts(0, 0, 0);
    }
    var title := SanitizeValue(sys.collection);
    var header := [Prop("collection", title), Prop("shortname", sys.key), Prop("launch", LaunchValue(launch.value))];
    var blocks, main, pending := SplitByCompleteness(es);
    var sections: seq<Section> := [];
    if |pending| > 0 {
      var pendHeader := [PENDING_LINE, Prop("collection", title + " (Pending)"),
                         Prop("shortname", sys.key + "-pending"), Prop("summary", PENDING_SUMMARY)];
      sections := [Section(pendHeader, pending)];
    }
    BlocksNotEmpty(Select(es, Main));
    BlocksNotEmpty(Select(es, Pending));
    var custom := RenderCustoms(es, blocks, customs, launch.value);
    var file := Assemble(header, main, sections + custom);
    text := Some(file);
    PartitionCounts(es);
    counts := Counts(|main|, |pending|, |custom|);
  }

  /** The loop over the custom collections. */
  method RenderCustoms(es: seq<Entry>, blocks: seq<seq<string>>, customs: seq<CustomView>, launch: string)
    returns (sections: seq<Section>)
    requires |blocks| == |es| && forall i :: 0 <= i < |es| ==> blocks[i] == GameLines(es[i])
    ensures sections == CustomSections(customs, es, launch) && SectionsPrintable(sections)
  {
    hide GameLines, CustomHeader, Select, Blocks, Sanitize;
    sections := [];
    assert CustomSections(customs[..0], es, launch) == [];
    for k := 0 to |customs|
      invariant sections == CustomSections(customs[..k], es, launch) && SectionsPrintable(sections)
    {
      assert customs[..k + 1] == customs[..k] + [customs[k]];
      CustomSectionsSnoc(customs[..k], customs[k], es, launch);
      var members, _ := MemberBlocks(es, blocks, customs[k]);
      BlocksNotEmpty(Select(es, Members(customs[k].members)));
      if members != [] {
        var header := CustomHeaderLines(customs[k], launch);
        sections := sections + [Section(header, members)];
      }
    }
    assert customs[..|customs|] == customs;
  }

  // ---------------------------------------------------------------- partition

  /** Main and pending listings share every entry out between them, each exactly once. */
  lemma {:induction false} MainAndPendingPartition(es: seq<Entry>)
    ensures multiset(Select(es, Main)) + multiset(Select(es, Pending)) == multiset(es)
    ensures forall e :: e in Select(es, Main) <==> e in es && e.playable
    ensures forall e :: e in Select(es, Pending) <==> e in es && !e.playable
  {
    if es != [] {
      MainAndPendingPartition(es[1..]);
      assert es == [es[0]] + es[1..];
    }
  }

  lemma PartitionCounts(es: seq<Entry>)
    ensures |Blocks(Select(es, Main))| + |Blocks(Select(es, Pending))| == |es|
  {
    BlocksNotEmpty(Select(es, Main));
    BlocksNotEmpty(Select(es, Pending));
    MainAndPendingPartition(es);
    assert |multiset(es)| == |multiset(Select(es, Main))| + |multiset(Select(es, Pending))|;
  }
}
