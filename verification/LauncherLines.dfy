/**
 No line of a file rendered from clean inputs holds a line feed, so the file splits into
 the lines it was joined from.
 */
module LauncherLines {
  import opened Lines
  import opened LauncherFile
  import opened RoundTrip

  ghost predicate EachOneLine(ls: seq<string>) {
    forall k :: 0 <= k < |ls| ==> OneLine(ls[k])
  }

  lemma CleanIsOneLine(v: string)
    requires CleanValue(v)
    ensures OneLine(v)
  {
    assert IsControl(NL);
  }

  lemma SanitizedOneLine(s: string)
    ensures OneLine(Sanitize(s))
  {
    SanitizedIsClean(s);
    CleanIsOneLine(Sanitize(s));
  }

  lemma FieldOneLine(key: string, value: string)
    requires OneLine(key)
    ensures EachOneLine(FieldLine(key, value))
  {
    SanitizedOneLine(value);
  }

  lemma {:induction false} AssetsOneLine(assets: seq<Asset>)
    requires forall k :: 0 <= k < |assets| ==> CleanAsset(assets[k])
    ensures EachOneLine(AssetLines(assets))
  {
    if assets != [] {
      AssetsOneLine(assets[1..]);
    }
  }

  lemma GameOneLine(e: Entry)
    requires CleanEntry(e)
    ensures EachOneLine(GameLines(e))
  {
    hide FieldLine, Sanitize, GameTitle, CleanAsset, AssetLines;
    var m := e.meta;
    SanitizedOneLine(m.relPath);
    TitleIsClean(m.relPath);
    CleanIsOneLine(GameTitle(m.relPath));
    FieldOneLine("description", m.description);
    FieldOneLine("release", m.release);
    FieldOneLine("developer", m.developer);
    FieldOneLine("publisher", m.publisher);
    FieldOneLine("genre", m.genre);
    FieldOneLine("rating", m.rating);
    AssetsOneLine(e.assets);
  }

  lemma {:induction false} BlocksOneLine(es: seq<Entry>)
    requires CleanEntries(es)
    ensures EachOneLine(BlockLines(Blocks(es)))
  {
    hide GameLines, CleanEntry;
    if es != [] {
      CleanHead(es);
      GameOneLine(es[0]);
      BlocksOneLine(es[1..]);
      assert Blocks(es)[1..] == Blocks(es[1..]);
    }
  }

  lemma ListedOneLine(es: seq<Entry>, l: Listing)
    requires CleanEntries(es)
    ensures EachOneLine(BlockLines(Blocks(Select(es, l))))
  {
    SelectedAreClean(es, l);
    BlocksOneLine(Select(es, l));
  }

  lemma SummaryOneLine()
    ensures OneLine(PENDING_SUMMARY)
  {
    assert OneLine("Still downloading");
    assert OneLine("Still downloading or incomplete -");
  }

  lemma JoinedOneLine(a: string, b: string)
    requires OneLine(a) && OneLine(b)
    ensures OneLine(a + b)
  {
  }

  lemma MarkersOneLine()
    ensures OneLine(PENDING_MARKER) && OneLine(CUSTOM_MARKER) && OneLine(MANAGED)
  {
  }

  lemma FixedOneLine()
    ensures OneLine(PENDING_LINE) && OneLine(CUSTOM_LINE) && OneLine(PENDING_SUMMARY)
  {
    hide OneLine;
    SummaryOneLine();
    MarkersOneLine();
    JoinedOneLine(PENDING_MARKER, MANAGED);
    JoinedOneLine(CUSTOM_MARKER, MANAGED);
  }

  lemma PropOneLine(key: string, value: string)
    requires OneLine(key) && OneLine(value)
    ensures OneLine(Prop(key, value))
  {
  }

  lemma PendingOneLine(sys: System, es: seq<Entry>)
    requires CleanEntries(es) && OneLine(sys.key)
    ensures EachOneLine(SectionLines(PendingSections(sys, es)))
  {
    hide CleanEntries, Sanitize, Blocks, Select, Prop;
    SanitizedOneLine(sys.collection);
    FixedOneLine();
    PropOneLine("collection", Sanitize(sys.collection) + " (Pending)");
    PropOneLine("shortname", sys.key + "-pending");
    PropOneLine("summary", PENDING_SUMMARY);
    ListedOneLine(es, Pending);
    OneSection(PendingHeader(sys), Blocks(Select(es, Pending)));
  }

  lemma CustomOneLine(cv: CustomView, es: seq<Entry>, launch: string)
    requires CleanEntries(es) && OneLine(cv.shortname) && OneLine(launch)
    ensures EachOneLine(CustomLines(cv, es, launch))
  {
    hide CleanEntries, Sanitize, Blocks, Select, Prop;
    SanitizedOneLine(cv.title);
    SanitizedOneLine(cv.summary);
    FixedOneLine();
    PropOneLine("collection", Sanitize(cv.title));
    PropOneLine("shortname", cv.shortname);
    PropOneLine("summary", Sanitize(cv.summary));
    PropOneLine("launch", LaunchValue(launch));
    ListedOneLine(es, Members(cv.members));
  }

  lemma {:induction false} CustomsOneLine(customs: seq<CustomView>, es: seq<Entry>, launch: string)
    requires CleanEntries(es) && CleanCustoms(customs, es) && OneLine(launch)
    ensures EachOneLine(SectionLines(CustomSections(customs, es, launch)))
  {
    hide CleanEntries, CustomLines, Populated;
    if customs != [] {
      FirstCustom(customs, es, launch);
      CleanCustomsHead(customs, es);
      CustomsOneLine(customs[1..], es, launch);
      if Populated(customs[0], es) {
        CustomOneLine(customs[0], es, launch);
      }
    }
  }

  lemma SystemOneLine(sys: System, launch: string, es: seq<Entry>, customs: seq<CustomView>)
    requires CleanInputs(sys, launch, es, customs)
    ensures EachOneLine(SystemLines(sys, launch, es, customs))
  {
    hide CleanEntries, CleanCustoms, Sanitize, BlockLines, SectionLines, Blocks, Select;
    hide CustomSections, PendingSections;
    SanitizedOneLine(sys.collection);
    ListedOneLine(es, Main);
    PendingOneLine(sys, es);
    CustomsOneLine(customs, es, launch);
    SectionLinesAppend(PendingSections(sys, es), CustomSections(customs, es, launch));
  }
}
