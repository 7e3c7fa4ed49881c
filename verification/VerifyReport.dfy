module VerifyReport {
  // igir's report and the verdict drawn from it (ParseReport and launcherDBArtifact of
  // pkgs/arcade-webapp/internal/igir/runner.go, classifyVerify of internal/web/verify.go).
  // The CSV library's rows are given.

  import opened Options
  import opened Text
  import opened Lines
  import opened LauncherFile
  import Publish

  // ---------------------------------------------------------------- paths

  function Parts(s: string): seq<string>
    decreases |s|
  {
    var i := IndexOf(s, '/');
    if i < 0 then [s] else [s[..i]] + Parts(s[i + 1..])
  }

  /** Drops empty and "." components and resolves "..". */
  function Resolve(parts: seq<string>, rooted: bool, acc: seq<string>): seq<string>
    decreases |parts|
  {
    if parts == [] then acc
    else
      var p, rest := parts[0], parts[1..];
      if p == "" || p == "." then Resolve(rest, rooted, acc)
      else if p != ".." then Resolve(rest, rooted, acc + [p])
      else if acc != [] && acc[|acc| - 1] != ".." then Resolve(rest, rooted, acc[..|acc| - 1])
      else if rooted then Resolve(rest, rooted, acc)
      else Resolve(rest, rooted, acc + [".."])
  }

  predicate Rooted(path: string) { path != "" && path[0] == '/' }

  /** The components of filepath.Clean. */
  function Clean(path: string): seq<string> { Resolve(Parts(path), Rooted(path), []) }

  function CommonLength(a: seq<string>, b: seq<string>): (n: nat)
    ensures n <= |a| && n <= |b| && a[..n] == b[..n]
    ensures n < |a| && n < |b| ==> a[n] != b[n]
  {
    if a == [] || b == [] || a[0] != b[0] then 0
    else
      var n := CommonLength(a[1..], b[1..]);
      assert a[..n + 1] == [a[0]] + a[1..][..n] && b[..n + 1] == [b[0]] + b[1..][..n];
      n + 1
  }

  function Ups(n: nat): seq<string> { if n == 0 then [] else [".."] + Ups(n - 1) }

  /** The components of filepath.Rel, [] standing for "."; None where Rel returns an error. */
  function Rel(dir: string, path: string): Option<seq<string>> {
    var base, targ := Clean(dir), Clean(path);
    var n := CommonLength(base, targ);
    if Rooted(dir) != Rooted(path) || (n < |base| && base[n] == "..") then None
    else Some(Ups(|base| - n) + targ[n..])
  }

  /** underDir. */
  predicate Under(dir: string, path: string) {
    dir != "" && path != "" && Rel(dir, path).Some? && (Rel(dir, path).value == [] || Rel(dir, path).value[0] != "..")
  }

  ghost predicate NoUps(parts: seq<string>) { forall k :: 0 <= k < |parts| ==> parts[k] != ".." }

  lemma {:induction false} RootedHasNoUps(parts: seq<string>, acc: seq<string>)
    requires NoUps(acc)
    ensures NoUps(Resolve(parts, true, acc))
    decreases |parts|
  {
    if parts != [] {
      var p, rest := parts[0], parts[1..];
      if p == "" || p == "." {
        RootedHasNoUps(rest, acc);
      } else if p != ".." {
        RootedHasNoUps(rest, acc + [p]);
      } else if acc != [] {
        RootedHasNoUps(rest, acc[..|acc| - 1]);
      } else {
        RootedHasNoUps(rest, acc);
      }
    }
  }

  /** Between absolute paths, being under a directory is having its components as a prefix. */
  lemma UnderIsPrefix(dir: string, path: string)
    requires Rooted(dir) && Rooted(path)
    ensures Under(dir, path) <==> Clean(dir) <= Clean(path)
  {
    hide Clean;
    assert NoUps(Clean(dir)) && NoUps(Clean(path)) by {
      CleanHasNoUps(dir);
      CleanHasNoUps(path);
    }
    var base, targ := Clean(dir), Clean(path);
    if base <= targ {
      CommonOfPrefix(base, targ);
    }
  }

  lemma {:induction false} CommonOfPrefix(base: seq<string>, targ: seq<string>)
    requires base <= targ
    ensures CommonLength(base, targ) == |base|
  {
    if base != [] {
      CommonOfPrefix(base[1..], targ[1..]);
    }
  }

  lemma CleanHasNoUps(path: string)
    requires Rooted(path)
    ensures NoUps(Clean(path))
  {
    RootedHasNoUps(Parts(path), []);
  }

  /** A path below a is also below b, which a is not, exactly when b is nested in a and holds it. */
  lemma UnderBothExactly(a: string, b: string, path: string)
    requires Rooted(a) && Rooted(b) && Rooted(path) && Under(a, path) && !(Clean(b) <= Clean(a))
    ensures Under(b, path) <==> Clean(a) < Clean(b) <= Clean(path)
  {
    hide Clean, Under, Rel;
    UnderIsPrefix(a, path);
    UnderIsPrefix(b, path);
    if Clean(b) <= Clean(path) {
      TwoPrefixes(Clean(a), Clean(b), Clean(path));
    }
  }

  lemma TwoPrefixes(a: seq<string>, b: seq<string>, c: seq<string>)
    requires a <= c && b <= c
    ensures a <= b || b <= a
  {
    assert a == c[..|a|] && b == c[..|b|];
  }

  lemma {:induction false} PartsSnoc(s: string, part: string)
    requires '/' !in part
    ensures Parts(s + "/" + part) == Parts(s) + [part]
    decreases |s|
  {
    hide IndexOf;
    var whole := s + "/" + part;
    var i := IndexOf(s, '/');
    if i < 0 {
      IndexAfterPrefix(s, part, '/');
      assert whole == s + ['/'] + part && whole[..|s|] == s && whole[|s| + 1..] == part;
      assert Parts(part) == [part];
    } else {
      var rest := s[i + 1..];
      assert whole == s[..i] + ['/'] + (rest + "/" + part);
      IndexAfterPrefix(s[..i], rest + "/" + part, '/');
      assert whole[..i] == s[..i] && whole[i + 1..] == rest + "/" + part;
      PartsSnoc(rest, part);
    }
  }

  /** One more component: kept, dropped, or undoing the one before. */
  function Stepped(parts: seq<string>, part: string): seq<string> {
    if part == "" || part == "." then parts
    else if part == ".." then if parts == [] then [] else parts[..|parts| - 1]
    else parts + [part]
  }

  lemma {:induction false} ResolveSnoc(parts: seq<string>, part: string, acc: seq<string>)
    requires NoUps(acc)
    ensures Resolve(parts + [part], true, acc) == Stepped(Resolve(parts, true, acc), part)
    decreases |parts|
  {
    if parts == [] {
      assert (parts + [part])[1..] == [];
    } else {
      var p := parts[0];
      assert (parts + [part])[0] == p && (parts + [part])[1..] == parts[1..] + [part];
      if p == "" || p == "." {
        ResolveSnoc(parts[1..], part, acc);
      } else if p != ".." {
        ResolveSnoc(parts[1..], part, acc + [p]);
      } else if acc != [] {
        ResolveSnoc(parts[1..], part, acc[..|acc| - 1]);
      } else {
        ResolveSnoc(parts[1..], part, acc);
      }
    }
  }

  /** Cleaning an absolute path, component by component from the root. */
  lemma CleanExactly(path: string, part: string)
    requires (path == "" || Rooted(path)) && '/' !in part
    ensures Clean(path + "/" + part) == Stepped(if path == "" then [] else Clean(path), part)
  {
    PartsSnoc(path, part);
    ResolveSnoc(Parts(path), part, []);
    assert Rooted(path + "/" + part);
    assert Parts("") == [""] && Resolve([""], true, []) == [];
  }

  // ---------------------------------------------------------------- rows

  /** launcherDBArtifact. */
  predicate Artifact(outputDir: string, path: string) {
    var rel := Rel(outputDir, path);
    rel.Some? && !(rel.value != [] && rel.value[0] == "..") &&
    (rel.value == [Publish.TARGET] || (|rel.value| == 1 && Publish.IsTempName(rel.value[0])) ||
     (rel.value != [] && rel.value[0] == "media"))
  }

  /** Upper case as far as it decides equality with the ASCII status words. */
  function Upper(c: char): char {
    if 'a' <= c <= 'z' then 'A' + (c - 'a')
    else if c == '\U{131}' then 'I'
    else if c == '\U{17F}' then 'S'
    else c
  }

  function UpperAll(s: string): string { if s == "" then "" else [Upper(s[0])] + UpperAll(s[1..]) }

  /** Positions of the columns; None when the header lacks one. */
  datatype Columns = Columns(status: nat, rom: Option<nat>, crc: Option<nat>, sha: Option<nat>)

  type Row = seq<string>

  function Cell(row: Row, i: Option<nat>): string {
    if i.Some? && i.value < |row| then TrimSpace(row[i.value]) else ""
  }

  function Status(cols: Columns, row: Row): string { UpperAll(Cell(row, Some(cols.status))) }

  function RomPath(cols: Columns, row: Row): string { Cell(row, cols.rom) }

  datatype Class = Blank | Found | Missing | Unmatched | Artifacts | Extra | Duplicate | Other

  datatype Dirs = Dirs(input: string, output: string)

  /** Which counter a row goes to: its status, and the side of the copy its file lives on. */
  function Classify(cols: Columns, dirs: Dirs, row: Row): Class {
    var status, path := Status(cols, row), RomPath(cols, row);
    if status == "" then Blank
    else if status == "FOUND" then Found
    else if status == "MISSING" then Missing
    else if status != "UNUSED" && status != "DUPLICATE" then Other
    else if Under(dirs.input, path) then Unmatched
    else if !Under(dirs.output, path) then Other
    else if status == "DUPLICATE" then Duplicate
    else if Artifact(dirs.output, path) then Artifacts
    else Extra
  }

  function CountOf(cols: Columns, dirs: Dirs, rows: seq<Row>, c: Class): nat {
    if rows == [] then 0
    else CountOf(cols, dirs, rows[..|rows| - 1], c) + if Classify(cols, dirs, rows[|rows| - 1]) == c then 1 else 0
  }

  /** The base names of the files of one class, in report order. */
  function FilesOf(cols: Columns, dirs: Dirs, rows: seq<Row>, c: Class): seq<string> {
    if rows == [] then []
    else
      var last := rows[|rows| - 1];
      FilesOf(cols, dirs, rows[..|rows| - 1], c) +
      if Classify(cols, dirs, last) == c then [BaseName(RomPath(cols, last))] else []
  }

  datatype FoundFile = FoundFile(path: string, crc: string, sha: string)

  function FoundFiles(cols: Columns, dirs: Dirs, rows: seq<Row>): seq<FoundFile> {
    if rows == [] then []
    else
      var last := rows[|rows| - 1];
      FoundFiles(cols, dirs, rows[..|rows| - 1]) +
      if Classify(cols, dirs, last) == Found && RomPath(cols, last) != ""
      then [FoundFile(RomPath(cols, last), Cell(last, cols.crc), Cell(last, cols.sha))] else []
  }

  function RelPath(rel: seq<string>): string { if rel == [] then "." else Join(rel, "/") }

  /** The path below the output directory, or its base name when it does not look like one. */
  function FoundRel(outputDir: string, path: string): string {
    var rel := Rel(outputDir, path);
    if rel.Some? && !(rel.value != [] && HasPrefix(rel.value[0], "..")) then
      RelPath(rel.value)
    else BaseName(path)
  }

  datatype Report = Report(
    datGames: nat, found: nat, missing: nat, unmatched: nat, duplicate: nat, extra: nat, other: nat, artifacts: nat,
    unmatchedFiles: seq<string>, extraFiles: seq<string>, artifactFiles: seq<string>,
    foundPaths: seq<string>, foundRels: seq<string>, foundCRCs: seq<string>, foundSHAs: seq<string>)

  const NO_REPORT := Report(0, 0, 0, 0, 0, 0, 0, 0, [], [], [], [], [], [], [])

  ghost predicate Counts(rep: Report, cols: Columns, dirs: Dirs, rows: seq<Row>) {
    rep.found == CountOf(cols, dirs, rows, Found) && rep.missing == CountOf(cols, dirs, rows, Missing) &&
    rep.unmatched == CountOf(cols, dirs, rows, Unmatched) && rep.duplicate == CountOf(cols, dirs, rows, Duplicate) &&
    rep.extra == CountOf(cols, dirs, rows, Extra) && rep.other == CountOf(cols, dirs, rows, Other) &&
    rep.artifacts == CountOf(cols, dirs, rows, Artifacts)
  }

  ghost predicate Offenders(rep: Report, cols: Columns, dirs: Dirs, rows: seq<Row>) {
    rep.unmatchedFiles == FilesOf(cols, dirs, rows, Unmatched) && rep.extraFiles == FilesOf(cols, dirs, rows, Extra) &&
    rep.artifactFiles == FilesOf(cols, dirs, rows, Artifacts)
  }

  ghost predicate FoundLists(rep: Report, cols: Columns, dirs: Dirs, rows: seq<Row>) {
    var files := FoundFiles(cols, dirs, rows);
    |rep.foundPaths| == |rep.foundCRCs| == |rep.foundSHAs| == |files| &&
    |rep.foundRels| == (if dirs.output == "" then 0 else |files|) &&
    (forall k :: 0 <= k < |files| ==>
      rep.foundPaths[k] == files[k].path && rep.foundCRCs[k] == files[k].crc && rep.foundSHAs[k] == files[k].sha) &&
    forall k :: 0 <= k < |rep.foundRels| ==> rep.foundRels[k] == FoundRel(dirs.output, files[k].path)
  }

  /** The relative paths are as many as the paths exactly when there is an output directory or nothing was found. */
  lemma AlignedExactly(rep: Report, cols: Columns, dirs: Dirs, rows: seq<Row>)
    requires FoundLists(rep, cols, dirs, rows)
    ensures |rep.foundRels| == |rep.foundPaths| <==> dirs.output != "" || FoundFiles(cols, dirs, rows) == []
  {
  }

  lemma UpperFound()
    ensures UpperAll("FOUND") == "FOUND"
  {
    assert UpperAll("D") == "D" && UpperAll("ND") == "ND" && UpperAll("UND") == "UND" && UpperAll("OUND") == "OUND";
  }

  lemma FoundRow(cols: Columns, dirs: Dirs, row: Row)
    requires Status(cols, row) == "FOUND" && RomPath(cols, row) != ""
    ensures |FoundFiles(cols, dirs, [row])| == 1
  {
    hide Status, RomPath, Cell, Under, Artifact;
    assert [row][..0] == [];
  }

  /** One found file and no output directory are enough. */
  lemma MisalignedExample(rep: Report)
    requires FoundLists(rep, Columns(0, Some(1), None, None), Dirs("/i", ""), [["FOUND", "/f"]])
    ensures |rep.foundPaths| == 1 && |rep.foundRels| == 0
  {
    hide UpperAll, TrimSpace, FoundFiles;
    UpperFound();
    assert Trimmed("FOUND") && Trimmed("/f");
    FoundRow(Columns(0, Some(1), None, None), Dirs("/i", ""), ["FOUND", "/f"]);
  }

  // ---------------------------------------------------------------- the name a found file is recorded under

  /** The path is what filepath.Clean gives. */
  predicate CleanPath(path: string) { Rooted(path) && path == "/" + Join(Clean(path), "/") }

  ghost predicate Components(parts: seq<string>) {
    forall k :: 0 <= k < |parts| ==> parts[k] != "" && '/' !in parts[k]
  }

  lemma {:induction false} PartsHaveNoSlash(s: string)
    ensures forall k :: 0 <= k < |Parts(s)| ==> '/' !in Parts(s)[k]
    decreases |s|
  {
    var i := IndexOf(s, '/');
    if i >= 0 {
      PartsHaveNoSlash(s[i + 1..]);
    }
  }

  lemma {:induction false} ResolvedComponents(parts: seq<string>, acc: seq<string>)
    requires Components(acc) && forall k :: 0 <= k < |parts| ==> '/' !in parts[k]
    ensures Components(Resolve(parts, true, acc))
    decreases |parts|
  {
    if parts != [] {
      var p, rest := parts[0], parts[1..];
      if p == "" || p == "." {
        ResolvedComponents(rest, acc);
      } else if p != ".." {
        ResolvedComponents(rest, acc + [p]);
      } else if acc != [] && acc[|acc| - 1] != ".." {
        ResolvedComponents(rest, acc[..|acc| - 1]);
      } else {
        ResolvedComponents(rest, acc);
      }
    }
  }

  /** What comes before the last slash of a rooted path. */
  lemma {:induction false} LastComponent(parts: seq<string>) returns (before: string)
    requires parts != []
    ensures "/" + Join(parts, "/") == before + "/" + parts[|parts| - 1]
    ensures |Join(parts, "/")| == |before| + |parts[|parts| - 1]|
  {
    if |parts| == 1 {
      before := "";
    } else {
      var rest := LastComponent(parts[1..]);
      before := "/" + parts[0] + rest;
      assert "/" + Join(parts, "/") == "/" + parts[0] + ("/" + Join(parts[1..], "/"));
      assert parts[1..][|parts| - 2] == parts[|parts| - 1];
    }
  }

  lemma BaseOfClean(path: string)
    requires CleanPath(path) && Clean(path) != []
    ensures BaseName(path) == Clean(path)[|Clean(path)| - 1]
  {
    hide BaseName, Clean;
    var parts := Clean(path);
    assert Components(parts) by {
      CleanComponents(path);
    }
    var before := LastComponent(parts);
    BaseAfterSlash(before, parts[|parts| - 1]);
  }

  lemma CleanComponents(path: string)
    requires Rooted(path)
    ensures Components(Clean(path))
  {
    PartsHaveNoSlash(path);
    ResolvedComponents(Parts(path), []);
  }

  lemma RelBelow(dir: string, path: string)
    requires Rooted(dir) && Rooted(path)
    ensures Under(dir, path) <==> Clean(dir) <= Clean(path)
    ensures Under(dir, path) ==> Rel(dir, path) == Some(Clean(path)[|Clean(dir)|..])
  {
    hide Clean;
    UnderIsPrefix(dir, path);
    if Clean(dir) <= Clean(path) {
      CommonOfPrefix(Clean(dir), Clean(path));
      assert [] + Clean(path)[|Clean(dir)|..] == Clean(path)[|Clean(dir)|..];
    }
  }

  /** Below the output directory: its launcher file, a temporary of that, or the media tree. */
  ghost predicate Owned(below: seq<string>) {
    (|below| == 1 && (below[0] == "metadata.pegasus.txt" || Publish.IsTempName(below[0]))) ||
    (below != [] && below[0] == "media")
  }

  /** The files the generator owns: in the output itself its target and temporaries, and all of the media tree. */
  lemma ArtifactExactly(dir: string, path: string)
    requires Rooted(dir) && Rooted(path)
    ensures Artifact(dir, path) <==> Clean(dir) <= Clean(path) && Owned(Clean(path)[|Clean(dir)|..])
  {
    hide Clean, Publish.IsTempName;
    RelBelow(dir, path);
    assert NoUps(Clean(path)) by {
      CleanHasNoUps(path);
    }
  }

  /**
   The file name kept for a path below the output is its relative path exactly when the
   first component does not begin with two dots or is all there is: a cleaned path two or
   more components deep whose first begins with two dots is cut down to its base name.
   */
  lemma FoundRelExactly(outputDir: string, path: string)
    requires Rooted(outputDir) && CleanPath(path) && Under(outputDir, path)
    ensures var rel := Rel(outputDir, path).value;
      FoundRel(outputDir, path) == RelPath(rel) <==> !(|rel| >= 2 && HasPrefix(rel[0], ".."))
  {
    hide Clean, Under, BaseName, Rel;
    RelBelow(outputDir, path);
    var rel := Rel(outputDir, path).value;
    if rel != [] {
      BaseOfClean(path);
      CleanComponents(path);
      var last := rel[|rel| - 1];
      assert last == Clean(path)[|Clean(path)| - 1];
      if |rel| >= 2 {
        JoinIsLonger(rel);
      }
    }
  }

  lemma JoinIsLonger(parts: seq<string>)
    requires |parts| >= 2
    ensures |Join(parts, "/")| > |parts[|parts| - 1]|
  {
    var rest := LastComponent(parts[1..]);
  }

  lemma PartsOf(part: string, rest: string)
    requires '/' !in part
    ensures Parts(part + "/" + rest) == [part] + Parts(rest)
  {
    var s := part + "/" + rest;
    IndexAfterPrefix(part, rest, '/');
    assert s == part + ['/'] + rest;
    assert s[..|part|] == part && s[|part| + 1..] == rest;
  }

  lemma CleanNames(names: seq<string>, path: string)
    requires Rooted(path) && Parts(path) == [""] + names
    requires forall k :: 0 <= k < |names| ==> names[k] != "" && names[k] != "." && names[k] != ".."
    ensures Clean(path) == names
  {
    assert ([""] + names)[1..] == names;
    ResolvedNames(names, []);
    assert [] + names == names;
  }

  lemma {:induction false} ResolvedNames(names: seq<string>, acc: seq<string>)
    requires forall k :: 0 <= k < |names| ==> names[k] != "" && names[k] != "." && names[k] != ".."
    ensures Resolve(names, true, acc) == acc + names
    decreases |names|
  {
    if names != [] {
      ResolvedNames(names[1..], acc + [names[0]]);
      assert acc + [names[0]] + names[1..] == acc + names;
    }
  }

  lemma PartsOfName(name: string)
    requires '/' !in name
    ensures Parts(name) == [name]
  {
  }

  lemma PartsOfTwo(a: string, b: string)
    requires '/' !in a && '/' !in b
    ensures Parts(a + "/" + b) == [a, b]
  {
    hide Parts;
    PartsOfName(b);
    PartsOf(a, b);
  }

  lemma PartsRooted(rest: string)
    ensures Parts("/" + rest) == [""] + Parts(rest)
  {
    hide Parts;
    PartsOf("", rest);
    assert "" + "/" + rest == "/" + rest;
  }

  lemma ExampleParts()
    ensures Parts("/o") == ["", "o"] && Parts("/o/b") == ["", "o", "b"] && Parts("/o/..a/b") == ["", "o", "..a", "b"]
  {
    hide Parts;
    PartsOfName("o");
    PartsRooted("o");
    PartsOfTwo("o", "b");
    PartsRooted("o/b");
    PartsOfTwo("..a", "b");
    PartsOf("o", "..a/b");
    PartsRooted("o/..a/b");
    assert "/" + "o" == "/o" && "o" + "/" + "b" == "o/b" && "/" + "o/b" == "/o/b";
    assert "..a" + "/" + "b" == "..a/b" && "o" + "/" + "..a/b" == "o/..a/b" && "/" + "o/..a/b" == "/o/..a/b";
  }

  lemma ExampleClean()
    ensures Clean("/o") == ["o"] && Clean("/o/b") == ["o", "b"] && Clean("/o/..a/b") == ["o", "..a", "b"]
  {
    hide Clean, Parts;
    ExampleParts();
    assert "..a"[2] == 'a';
    assert [""] + ["o"] == ["", "o"] && [""] + ["o", "b"] == ["", "o", "b"];
    assert [""] + ["o", "..a", "b"] == ["", "o", "..a", "b"];
    CleanNames(["o"], "/o");
    CleanNames(["o", "b"], "/o/b");
    CleanNames(["o", "..a", "b"], "/o/..a/b");
  }

  /** A file below a directory named ..a is recorded under the name of one in the output itself. */
  lemma FoundRelExample()
    ensures Under("/o", "/o/..a/b") && Rel("/o", "/o/..a/b") == Some(["..a", "b"])
    ensures FoundRel("/o", "/o/..a/b") == "b" == FoundRel("/o", "/o/b")
  {
    hide Clean, BaseName, Rel, Under, Join;
    ExampleClean();
    RelBelow("/o", "/o/b");
    RelBelow("/o", "/o/..a/b");
    assert ["o", "b"][1..] == ["b"] && ["o", "..a", "b"][1..] == ["..a", "b"];
    assert "/o/..a/b" == "/o/..a" + "/" + "b";
    BaseAfterSlash("/o/..a", "b");
    assert Join(["b"], "/") == "b" by {
      JoinOne("b");
    }
  }

  lemma JoinOne(part: string)
    ensures Join([part], "/") == part
  {
  }

  // ---------------------------------------------------------------- ParseReport

  ghost predicate FirstColumn(header: Row, name: string, i: Option<nat>) {
    match i
    case None => forall k :: 0 <= k < |header| ==> TrimSpace(header[k]) != name
    case Some(n) => n < |header| && TrimSpace(header[n]) == name && forall k :: 0 <= k < n ==>
      TrimSpace(header[k]) != name
  }

  method Col(header: Row, name: string) returns (i: Option<nat>)
    ensures FirstColumn(header, name, i)
  {
    for k := 0 to |header|
      invariant forall j :: 0 <= j < k ==> TrimSpace(header[j]) != name
    {
      if TrimSpace(header[k]) == name {
        return Some(k);
      }
    }
    return None;
  }

  /** None when the header has no Status column. */
  method ParseReport(header: Row, rows: seq<Row>, dirs: Dirs) returns (rep: Option<Report>, cols: Columns)
    ensures rep.None? <==> forall k :: 0 <= k < |header| ==> TrimSpace(header[k]) != "Status"
    ensures rep.Some? ==>
      FirstColumn(header, "Status", Some(cols.status)) && FirstColumn(header, "ROM Files", cols.rom) &&
      FirstColumn(header, "CRC32", cols.crc) && FirstColumn(header, "SHA1", cols.sha)
    ensures rep.Some? ==>
      Reports(rep.value, cols, dirs, rows) && rep.value.datGames == rep.value.found + rep.value.missing
  {
    hide Reports, Added;
    var status := Col(header, "Status");
    if status.None? {
      return None, Columns(0, None, None, None);
    }
    var rom := Col(header, "ROM Files");
    var crc := Col(header, "CRC32");
    var sha := Col(header, "SHA1");
    cols := Columns(status.value, rom, crc, sha);
    var r := NO_REPORT;
    EmptyReport(cols, dirs);
    for n := 0 to |rows|
      invariant Reports(r, cols, dirs, rows[..n])
    {
      AddedReports(r, cols, dirs, rows[..n], rows[n]);
      r := AddRow(r, cols, dirs, rows[n]);
      assert rows[..n + 1] == rows[..n] + [rows[n]];
    }
    assert rows[..|rows|] == rows;
    SumAdded(r, cols, dirs, rows);
    rep := Some(r.(datGames := r.found + r.missing));
  }

  /** What one row changes, by its class. */
  function Added(r: Report, cols: Columns, dirs: Dirs, row: Row): Report {
    var path := RomPath(cols, row);
    match Classify(cols, dirs, row)
    case Blank => r
    case Found =>
      var counted := r.(found := r.found + 1);
      if path == "" then counted
      else counted.(
        foundPaths := r.foundPaths + [path],
        foundCRCs := r.foundCRCs + [Cell(row, cols.crc)], foundSHAs := r.foundSHAs + [Cell(row, cols.sha)],
        foundRels := if dirs.output == "" then r.foundRels else r.foundRels + [FoundRel(dirs.output, path)])
    case Missing => r.(missing := r.missing + 1)
    case Unmatched => r.(unmatched := r.unmatched + 1, unmatchedFiles := r.unmatchedFiles + [BaseName(path)])
    case Artifacts => r.(artifacts := r.artifacts + 1, artifactFiles := r.artifactFiles + [BaseName(path)])
    case Extra => r.(extra := r.extra + 1, extraFiles := r.extraFiles + [BaseName(path)])
    case Duplicate => r.(duplicate := r.duplicate + 1)
    case Other => r.(other := r.other + 1)
  }

  /** The loop's switch. */
  method AddRow(r0: Report, cols: Columns, dirs: Dirs, row: Row) returns (r: Report)
    ensures r == Added(r0, cols, dirs, row)
  {
    hide Under, Artifact, TrimSpace, UpperAll, BaseName, FoundRel, Cell;
    r := r0;
    var path := RomPath(cols, row);
    var status := Status(cols, row);
    if status == "" {
      return;
    }
    if status == "FOUND" {
      r := r.(found := r.found + 1);
      if path != "" {
        r := r.(foundPaths := r.foundPaths + [path],
                foundCRCs := r.foundCRCs + [Cell(row, cols.crc)], foundSHAs := r.foundSHAs + [Cell(row, cols.sha)]);
        if dirs.output != "" {
          r := r.(foundRels := r.foundRels + [FoundRel(dirs.output, path)]);
        }
      }
    } else if status == "MISSING" {
      r := r.(missing := r.missing + 1);
    } else if status == "UNUSED" {
      if Under(dirs.input, path) {
        r := r.(unmatched := r.unmatched + 1, unmatchedFiles := r.unmatchedFiles + [BaseName(path)]);
      } else if Under(dirs.output, path) && Artifact(dirs.output, path) {
        r := r.(artifacts := r.artifacts + 1, artifactFiles := r.artifactFiles + [BaseName(path)]);
      } else if Under(dirs.output, path) {
        r := r.(extra := r.extra + 1, extraFiles := r.extraFiles + [BaseName(path)]);
      } else {
        r := r.(other := r.other + 1);
      }
    } else if status == "DUPLICATE" {
      if Under(dirs.input, path) {
        r := r.(unmatched := r.unmatched + 1, unmatchedFiles := r.unmatchedFiles + [BaseName(path)]);
      } else if Under(dirs.output, path) {
        r := r.(duplicate := r.duplicate + 1);
      } else {
        r := r.(other := r.other + 1);
      }
    } else {
      r := r.(other := r.other + 1);
    }
  }

  /** The counters, offender lists and found lists of a report of the rows so far. */
  ghost predicate Reports(rep: Report, cols: Columns, dirs: Dirs, rows: seq<Row>) {
    Counts(rep, cols, dirs, rows) && Offenders(rep, cols, dirs, rows) && FoundLists(rep, cols, dirs, rows)
  }

  lemma EmptyReport(cols: Columns, dirs: Dirs)
    ensures Reports(NO_REPORT, cols, dirs, [])
  {
  }

  lemma SumAdded(r: Report, cols: Columns, dirs: Dirs, rows: seq<Row>)
    requires Reports(r, cols, dirs, rows)
    ensures Reports(r.(datGames := r.found + r.missing), cols, dirs, rows)
  {
    hide CountOf, FilesOf, FoundFiles, FoundRel;
  }

  lemma AddedReports(r: Report, cols: Columns, dirs: Dirs, before: seq<Row>, row: Row)
    requires Reports(r, cols, dirs, before)
    ensures Reports(Added(r, cols, dirs, row), cols, dirs, before + [row])
  {
    hide Counts, Offenders, FoundLists, Added;
    AddedCounts(r, cols, dirs, before, row);
    AddedOffenders(r, cols, dirs, before, row);
    AddedFound(r, cols, dirs, before, row);
  }

  lemma AddedCounts(r: Report, cols: Columns, dirs: Dirs, before: seq<Row>, row: Row)
    requires Counts(r, cols, dirs, before)
    ensures Counts(Added(r, cols, dirs, row), cols, dirs, before + [row])
  {
    hide Classify, RomPath, Cell, BaseName, FoundRel, CountOf;
    RowAdded(cols, dirs, before, row);
  }

  lemma AddedOffenders(r: Report, cols: Columns, dirs: Dirs, before: seq<Row>, row: Row)
    requires Offenders(r, cols, dirs, before)
    ensures Offenders(Added(r, cols, dirs, row), cols, dirs, before + [row])
  {
    hide Classify, RomPath, Cell, BaseName, FoundRel, FilesOf;
    RowAdded(cols, dirs, before, row);
  }

  lemma AddedFound(r: Report, cols: Columns, dirs: Dirs, before: seq<Row>, row: Row)
    requires FoundLists(r, cols, dirs, before)
    ensures FoundLists(Added(r, cols, dirs, row), cols, dirs, before + [row])
  {
    hide Classify, RomPath, Cell, BaseName, FoundRel, FoundFiles;
    RowAdded(cols, dirs, before, row);
  }

  lemma RowAdded(cols: Columns, dirs: Dirs, before: seq<Row>, row: Row)
    ensures forall c ::
      CountOf(cols, dirs, before + [row], c) == CountOf(cols, dirs, before, c) + if Classify(cols, dirs, row) == c
        then 1 else 0
    ensures forall c ::
      FilesOf(cols, dirs, before + [row], c) == FilesOf(cols, dirs, before, c) + if Classify(cols, dirs, row) == c
        then [BaseName(RomPath(cols, row))] else []
    ensures FoundFiles(cols, dirs, before + [row]) == FoundFiles(cols, dirs, before) +
      if Classify(cols, dirs, row) == Found && RomPath(cols, row) != ""
      then [FoundFile(RomPath(cols, row), Cell(row, cols.crc), Cell(row, cols.sha))] else []
  {
    hide Classify, RomPath, Cell, BaseName;
    assert (before + [row])[..|before|] == before;
  }

  // ---------------------------------------------------------------- accounting

  /** The rows long enough to have a status that is not blank. */
  function WithStatus(cols: Columns, rows: seq<Row>): nat {
    if rows == [] then 0
    else
      var last := rows[|rows| - 1];
      WithStatus(cols, rows[..|rows| - 1]) + if cols.status < |last| && TrimSpace(last[cols.status]) != "" then 1 else 0
  }

  lemma UpperKeepsLength(s: string)
    ensures UpperAll(s) == "" <==> s == ""
  {
  }

  /** Every row with a status is counted in exactly one counter, and the offender lists match their counts. */
  lemma {:induction false} EveryRowCountedOnce(cols: Columns, dirs: Dirs, rows: seq<Row>)
    ensures CountOf(cols, dirs, rows, Found) + CountOf(cols, dirs, rows, Missing) +
      CountOf(cols, dirs, rows, Unmatched) + CountOf(cols, dirs, rows, Duplicate) + CountOf(cols, dirs, rows, Extra) +
      CountOf(cols, dirs, rows, Artifacts) + CountOf(cols, dirs, rows, Other) == WithStatus(cols, rows)
    ensures forall c :: |FilesOf(cols, dirs, rows, c)| == CountOf(cols, dirs, rows, c)
  {
    if rows != [] {
      hide BaseName;
      var rest, last := rows[..|rows| - 1], rows[|rows| - 1];
      EveryRowCountedOnce(cols, dirs, rest);
      BlankExactly(cols, dirs, last);
      hide Classify, TrimSpace;
      assert rows == rest + [last];
      RowAdded(cols, dirs, rest, last);
    }
  }

  lemma BlankExactly(cols: Columns, dirs: Dirs, row: Row)
    ensures Classify(cols, dirs, row) != Blank <==> cols.status < |row| && TrimSpace(row[cols.status]) != ""
  {
    UpperKeepsLength(Cell(row, Some(cols.status)));
  }

  // ---------------------------------------------------------------- classifyVerify

  datatype VerifyResult = VerifyResult(unchecked: nat, datGames: nat, found: nat, missing: nat, unmatched: nat,
                                       extra: nat, other: nat)

  datatype Verdict = Unknown | UncheckedState | UnmatchedState | MissingState | ExtraState | Verified

  function ClassifyVerify(v: VerifyResult, present: bool): Verdict {
    if !present then Unknown
    else if v.unchecked != 0 then UncheckedState
    else if v.unmatched > 0 || v.other > 0 then UnmatchedState
    else if v.datGames == 0 then Unknown
    else if v.missing > 0 || v.found < v.datGames then MissingState
    else if v.extra > 0 then ExtraState
    else Verified
  }

  /** The stored result of a checked report. */
  function ResultOf(cols: Columns, dirs: Dirs, rows: seq<Row>): VerifyResult {
    var found, missing := CountOf(cols, dirs, rows, Found), CountOf(cols, dirs, rows, Missing);
    VerifyResult(0, found + missing, found, missing,
                 CountOf(cols, dirs, rows, Unmatched), CountOf(cols, dirs, rows, Extra),
                 CountOf(cols, dirs, rows, Other))
  }

  ghost predicate HasClass(cols: Columns, dirs: Dirs, rows: seq<Row>, c: Class) {
    exists k :: 0 <= k < |rows| && Classify(cols, dirs, rows[k]) == c
  }

  lemma {:induction false} CountPositive(cols: Columns, dirs: Dirs, rows: seq<Row>, c: Class)
    ensures CountOf(cols, dirs, rows, c) > 0 <==> HasClass(cols, dirs, rows, c)
  {
    hide Classify;
    if rows != [] {
      var rest := rows[..|rows| - 1];
      CountPositive(cols, dirs, rest, c);
      if HasClass(cols, dirs, rest, c) {
        var k :| 0 <= k < |rest| && Classify(cols, dirs, rest[k]) == c;
        assert rows[k] == rest[k];
      }
      if HasClass(cols, dirs, rows, c) && CountOf(cols, dirs, rows, c) == CountOf(cols, dirs, rest, c) {
        var k :| 0 <= k < |rows| && Classify(cols, dirs, rows[k]) == c;
        assert rest[k] == rows[k];
      }
    }
  }

  /** A checked report is green exactly when games were found, none missing, and no row is unmatched, extra or other. */
  lemma VerifiedExactly(cols: Columns, dirs: Dirs, rows: seq<Row>)
    ensures ClassifyVerify(ResultOf(cols, dirs, rows), true) == Verified <==>
      HasClass(cols, dirs, rows, Found) && !HasClass(cols, dirs, rows, Missing) &&
      !HasClass(cols, dirs, rows, Unmatched) &&
      !HasClass(cols, dirs, rows, Other) && !HasClass(cols, dirs, rows, Extra)
  {
    hide CountOf, HasClass;
    CountPositive(cols, dirs, rows, Found);
    CountPositive(cols, dirs, rows, Missing);
    CountPositive(cols, dirs, rows, Unmatched);
    CountPositive(cols, dirs, rows, Other);
    CountPositive(cols, dirs, rows, Extra);
  }

  // ---------------------------------------------------------------- by status word and side

  /** Below the output directory and not below the input. */
  predicate OutputSide(dirs: Dirs, path: string) { Under(dirs.output, path) && !Under(dirs.input, path) }

  /** An inventory row: igir matched the file with no game of the DAT, or with one it already has. */
  predicate Inventory(cols: Columns, row: Row) { Status(cols, row) == "UNUSED" || Status(cols, row) == "DUPLICATE" }

  predicate UnmatchedRow(cols: Columns, dirs: Dirs, row: Row) {
    Inventory(cols, row) && Under(dirs.input, RomPath(cols, row))
  }

  predicate ExtraRow(cols: Columns, dirs: Dirs, row: Row) {
    Status(cols, row) == "UNUSED" && OutputSide(dirs, RomPath(cols, row)) && !Artifact(dirs.output, RomPath(cols, row))
  }

  /** A status word that is not known, or an inventory row about a file of neither tree. */
  predicate OtherRow(cols: Columns, dirs: Dirs, row: Row) {
    var status, path := Status(cols, row), RomPath(cols, row);
    if Inventory(cols, row) then !Under(dirs.input, path) && !Under(dirs.output, path)
    else status != "" && status != "FOUND" && status != "MISSING"
  }

  /** A row's class by its status word and by the side its file is on. */
  lemma ClassByWord(cols: Columns, dirs: Dirs, row: Row)
    ensures Classify(cols, dirs, row) == Found <==> Status(cols, row) == "FOUND"
    ensures Classify(cols, dirs, row) == Missing <==> Status(cols, row) == "MISSING"
    ensures Classify(cols, dirs, row) == Unmatched <==> UnmatchedRow(cols, dirs, row)
    ensures Classify(cols, dirs, row) == Extra <==> ExtraRow(cols, dirs, row)
    ensures Classify(cols, dirs, row) == Other <==> OtherRow(cols, dirs, row)
    ensures Classify(cols, dirs, row) == Duplicate <==>
      Status(cols, row) == "DUPLICATE" && OutputSide(dirs, RomPath(cols, row))
    ensures Classify(cols, dirs, row) == Artifacts <==>
      Status(cols, row) == "UNUSED" && OutputSide(dirs, RomPath(cols, row)) && Artifact(dirs.output, RomPath(cols, row))
  {
    hide Status, RomPath, Under, Artifact;
  }

  /** The positions of the rows of a kind. */
  ghost function Where(rows: seq<Row>, kind: Row -> bool): set<nat> {
    set k: nat | k < |rows| && kind(rows[k])
  }

  lemma WhereOneMore(rows: seq<Row>, kind: Row -> bool)
    requires rows != []
    ensures |Where(rows, kind)| == |Where(rows[..|rows| - 1], kind)| + if kind(rows[|rows| - 1]) then 1 else 0
  {
    var last := |rows| - 1;
    assert Where(rows, kind) == Where(rows[..last], kind) + (if kind(rows[last]) then {last} else {});
  }

  lemma {:induction false} CountIsWhere(cols: Columns, dirs: Dirs, rows: seq<Row>, c: Class, kind: Row -> bool)
    requires forall row :: kind(row) <==> Classify(cols, dirs, row) == c
    ensures CountOf(cols, dirs, rows, c) == |Where(rows, kind)|
  {
    hide Classify;
    if rows == [] {
      assert Where(rows, kind) == {};
    } else {
      var rest, last := rows[..|rows| - 1], |rows| - 1;
      CountIsWhere(cols, dirs, rest, c, kind);
      WhereOneMore(rows, kind);
      hide Where;
    }
  }

  /** A report counts, for each class, the rows with its status word and its side. */
  lemma CountsExactly(rep: Report, cols: Columns, dirs: Dirs, rows: seq<Row>)
    requires Reports(rep, cols, dirs, rows)
    ensures rep.found == |Where(rows, row => Status(cols, row) == "FOUND")|
    ensures rep.missing == |Where(rows, row => Status(cols, row) == "MISSING")|
    ensures rep.unmatched == |Where(rows, row => UnmatchedRow(cols, dirs, row))|
    ensures rep.extra == |Where(rows, row => ExtraRow(cols, dirs, row))|
    ensures rep.other == |Where(rows, row => OtherRow(cols, dirs, row))|
    ensures rep.duplicate ==
      |Where(rows, row => Status(cols, row) == "DUPLICATE" && OutputSide(dirs, RomPath(cols, row)))|
    ensures rep.artifacts ==
      |Where(rows, row => Status(cols, row) == "UNUSED" && OutputSide(dirs, RomPath(cols, row)) &&
                          Artifact(dirs.output, RomPath(cols, row)))|
  {
    hide Classify, Status, RomPath, OutputSide, Artifact, UnmatchedRow, ExtraRow, OtherRow, CountOf, Where;
    hide Offenders, FoundLists;
    forall row
      ensures Classify(cols, dirs, row) == Found <==> Status(cols, row) == "FOUND"
      ensures Classify(cols, dirs, row) == Missing <==> Status(cols, row) == "MISSING"
      ensures Classify(cols, dirs, row) == Unmatched <==> UnmatchedRow(cols, dirs, row)
      ensures Classify(cols, dirs, row) == Extra <==> ExtraRow(cols, dirs, row)
      ensures Classify(cols, dirs, row) == Other <==> OtherRow(cols, dirs, row)
      ensures Classify(cols, dirs, row) == Duplicate <==>
        Status(cols, row) == "DUPLICATE" && OutputSide(dirs, RomPath(cols, row))
      ensures Classify(cols, dirs, row) == Artifacts <==>
        Status(cols, row) == "UNUSED" && OutputSide(dirs, RomPath(cols, row)) &&
        Artifact(dirs.output, RomPath(cols, row))
    {
      ClassByWord(cols, dirs, row);
    }
    CountIsWhere(cols, dirs, rows, Found, row => Status(cols, row) == "FOUND");
    CountIsWhere(cols, dirs, rows, Missing, row => Status(cols, row) == "MISSING");
    CountIsWhere(cols, dirs, rows, Unmatched, row => UnmatchedRow(cols, dirs, row));
    CountIsWhere(cols, dirs, rows, Extra, row => ExtraRow(cols, dirs, row));
    CountIsWhere(cols, dirs, rows, Other, row => OtherRow(cols, dirs, row));
    CountIsWhere(cols, dirs, rows, Duplicate,
                 row => Status(cols, row) == "DUPLICATE" && OutputSide(dirs, RomPath(cols, row)));
    CountIsWhere(cols, dirs, rows, Artifacts,
                 row => Status(cols, row) == "UNUSED" && OutputSide(dirs, RomPath(cols, row)) &&
                        Artifact(dirs.output, RomPath(cols, row)));
  }

  /** The listed names are those of the files of the rows at the positions idx, in report order. */
  ghost predicate NamesAt(names: seq<string>, cols: Columns, rows: seq<Row>, idx: seq<nat>) {
    Increasing(idx) && |names| == |idx| && forall k :: 0 <= k < |idx| ==>
      idx[k] < |rows| && names[k] == BaseName(RomPath(cols, rows[idx[k]]))
  }

  lemma {:induction false} FilesAt(cols: Columns, dirs: Dirs, rows: seq<Row>, c: Class) returns (idx: seq<nat>)
    ensures NamesAt(FilesOf(cols, dirs, rows, c), cols, rows, idx)
    ensures forall i: nat :: i in idx <==> i < |rows| && Classify(cols, dirs, rows[i]) == c
  {
    hide Classify, BaseName, RomPath;
    idx := [];
    if rows != [] {
      var n := |rows| - 1;
      idx := FilesAt(cols, dirs, rows[..n], c);
      assert forall k :: 0 <= k < |idx| ==> idx[k] in idx;
      if Classify(cols, dirs, rows[n]) == c {
        idx := idx + [n];
      } else {
        assert FilesOf(cols, dirs, rows, c) == FilesOf(cols, dirs, rows[..n], c);
      }
    }
  }

  /** The offenders a report names are those of the unmatched, extra and artifact rows, all of them, in order. */
  lemma OffendersExactly(rep: Report, cols: Columns, dirs: Dirs, rows: seq<Row>)
    returns (unmatched: seq<nat>, extra: seq<nat>, artifacts: seq<nat>)
    requires Reports(rep, cols, dirs, rows)
    ensures NamesAt(rep.unmatchedFiles, cols, rows, unmatched) && NamesAt(rep.extraFiles, cols, rows, extra) &&
      NamesAt(rep.artifactFiles, cols, rows, artifacts)
    ensures forall i: nat ::
      (i in unmatched <==> i < |rows| && UnmatchedRow(cols, dirs, rows[i])) &&
      (i in extra <==> i < |rows| && ExtraRow(cols, dirs, rows[i])) &&
      (i in artifacts <==> (
        i < |rows| && Status(cols, rows[i]) == "UNUSED" && OutputSide(dirs, RomPath(cols, rows[i])) &&
        Artifact(dirs.output, RomPath(cols, rows[i]))))
  {
    hide Counts, FoundLists, NamesAt, Classify, Status, RomPath, OutputSide, Artifact, UnmatchedRow, ExtraRow;
    unmatched := FilesAt(cols, dirs, rows, Unmatched);
    extra := FilesAt(cols, dirs, rows, Extra);
    artifacts := FilesAt(cols, dirs, rows, Artifacts);
    forall i: nat | i < |rows|
      ensures Classify(cols, dirs, rows[i]) == Unmatched <==> UnmatchedRow(cols, dirs, rows[i])
      ensures Classify(cols, dirs, rows[i]) == Extra <==> ExtraRow(cols, dirs, rows[i])
      ensures Classify(cols, dirs, rows[i]) == Artifacts <==>
        Status(cols, rows[i]) == "UNUSED" && OutputSide(dirs, RomPath(cols, rows[i])) &&
        Artifact(dirs.output, RomPath(cols, rows[i]))
    {
      ClassByWord(cols, dirs, rows[i]);
    }
  }

  lemma {:induction false} FoundAt(cols: Columns, dirs: Dirs, rows: seq<Row>) returns (idx: seq<nat>)
    ensures Increasing(idx) && |FoundFiles(cols, dirs, rows)| == |idx|
    ensures forall k :: 0 <= k < |idx| ==>
      idx[k] < |rows| && FoundFiles(cols, dirs, rows)[k] ==
      FoundFile(RomPath(cols, rows[idx[k]]), Cell(rows[idx[k]], cols.crc), Cell(rows[idx[k]], cols.sha))
    ensures forall i: nat :: i in idx <==> (
      i < |rows| && Status(cols, rows[i]) == "FOUND" && RomPath(cols, rows[i]) != "")
  {
    hide Classify, Status, RomPath, Cell;
    idx := [];
    if rows != [] {
      var n := |rows| - 1;
      idx := FoundAt(cols, dirs, rows[..n]);
      assert forall k :: 0 <= k < |idx| ==> idx[k] in idx;
      ClassByWord(cols, dirs, rows[n]);
      if Status(cols, rows[n]) == "FOUND" && RomPath(cols, rows[n]) != "" {
        idx := idx + [n];
      } else {
        assert FoundFiles(cols, dirs, rows) == FoundFiles(cols, dirs, rows[..n]);
      }
    }
  }

  /** The found lists are those of the FOUND rows with a file, all of them, each with its own path and checksums. */
  lemma FoundListsExactly(rep: Report, cols: Columns, dirs: Dirs, rows: seq<Row>) returns (idx: seq<nat>)
    requires Reports(rep, cols, dirs, rows)
    ensures Increasing(idx) && |rep.foundPaths| == |rep.foundCRCs| == |rep.foundSHAs| == |idx|
    ensures forall k :: 0 <= k < |idx| ==>
      idx[k] < |rows| && rep.foundPaths[k] == RomPath(cols, rows[idx[k]]) &&
      rep.foundCRCs[k] == Cell(rows[idx[k]], cols.crc) && rep.foundSHAs[k] == Cell(rows[idx[k]], cols.sha)
    ensures forall i: nat :: i in idx <==> (
      i < |rows| && Status(cols, rows[i]) == "FOUND" && RomPath(cols, rows[i]) != "")
  {
    hide Counts, Offenders, FoundFiles, RomPath, Cell, Status, FoundRel;
    idx := FoundAt(cols, dirs, rows);
  }

  /** A word is compared in upper case, letter by letter. */
  lemma {:induction false} UpperLetters(s: string)
    ensures |UpperAll(s)| == |s|
    ensures forall k :: 0 <= k < |s| ==>
      ('a' <= s[k] <= 'z' ==> UpperAll(s)[k] as int == s[k] as int - 32) &&
      ('A' <= s[k] <= 'Z' ==> UpperAll(s)[k] == s[k])
  {
    if s != "" {
      UpperLetters(s[1..]);
    }
  }

  ghost predicate HasRow(rows: seq<Row>, kind: Row -> bool) { exists k :: 0 <= k < |rows| && kind(rows[k]) }

  lemma HasClassByKind(cols: Columns, dirs: Dirs, rows: seq<Row>, c: Class, kind: Row -> bool)
    requires forall row :: kind(row) <==> Classify(cols, dirs, row) == c
    ensures CountOf(cols, dirs, rows, c) > 0 <==> HasRow(rows, kind)
  {
    hide Classify, CountOf;
    CountPositive(cols, dirs, rows, c);
  }

  /** The verdict of a checked report, from its rows' status words and sides. */
  lemma VerdictExactly(cols: Columns, dirs: Dirs, rows: seq<Row>)
    ensures ClassifyVerify(ResultOf(cols, dirs, rows), true) ==
      if HasRow(rows, row => UnmatchedRow(cols, dirs, row)) || HasRow(rows, row => OtherRow(cols, dirs, row))
      then UnmatchedState
      else if HasRow(rows, row => Status(cols, row) == "MISSING") then MissingState
      else if !HasRow(rows, row => Status(cols, row) == "FOUND") then Unknown
      else if HasRow(rows, row => ExtraRow(cols, dirs, row)) then ExtraState
      else Verified
  {
    hide Classify, Status, RomPath, OutputSide, Artifact, UnmatchedRow, ExtraRow, OtherRow, CountOf, HasRow;
    forall row
      ensures Classify(cols, dirs, row) == Found <==> Status(cols, row) == "FOUND"
      ensures Classify(cols, dirs, row) == Missing <==> Status(cols, row) == "MISSING"
      ensures Classify(cols, dirs, row) == Unmatched <==> UnmatchedRow(cols, dirs, row)
      ensures Classify(cols, dirs, row) == Extra <==> ExtraRow(cols, dirs, row)
      ensures Classify(cols, dirs, row) == Other <==> OtherRow(cols, dirs, row)
    {
      ClassByWord(cols, dirs, row);
    }
    HasClassByKind(cols, dirs, rows, Found, row => Status(cols, row) == "FOUND");
    HasClassByKind(cols, dirs, rows, Missing, row => Status(cols, row) == "MISSING");
    HasClassByKind(cols, dirs, rows, Unmatched, row => UnmatchedRow(cols, dirs, row));
    HasClassByKind(cols, dirs, rows, Extra, row => ExtraRow(cols, dirs, row));
    HasClassByKind(cols, dirs, rows, Other, row => OtherRow(cols, dirs, row));
  }

  /** A row that keeps a report green. */
  predicate GreenRow(cols: Columns, dirs: Dirs, row: Row) {
    var status, path := Status(cols, row), RomPath(cols, row);
    status == "" || status == "FOUND" || (status == "DUPLICATE" && OutputSide(dirs, path)) ||
    (status == "UNUSED" && OutputSide(dirs, path) && Artifact(dirs.output, path))
  }

  lemma NotGreenExactly(cols: Columns, dirs: Dirs, row: Row)
    ensures !GreenRow(cols, dirs, row) <==>
      UnmatchedRow(cols, dirs, row) || OtherRow(cols, dirs, row) || ExtraRow(cols, dirs, row) ||
      Status(cols, row) == "MISSING"
  {
    hide Status, RomPath, Under, Artifact;
  }

  /** Green exactly when some game was found and every row is one that keeps the report green. */
  lemma GreenExactly(cols: Columns, dirs: Dirs, rows: seq<Row>)
    ensures ClassifyVerify(ResultOf(cols, dirs, rows), true) == Verified <==>
      (exists k :: 0 <= k < |rows| && Status(cols, rows[k]) == "FOUND") &&
      forall k :: 0 <= k < |rows| ==> GreenRow(cols, dirs, rows[k])
  {
    hide Status, GreenRow, UnmatchedRow, OtherRow, ExtraRow, ClassifyVerify, ResultOf;
    VerdictExactly(cols, dirs, rows);
    forall k | 0 <= k < |rows|
      ensures !GreenRow(cols, dirs, rows[k]) <==>
        UnmatchedRow(cols, dirs, rows[k]) || OtherRow(cols, dirs, rows[k]) || ExtraRow(cols, dirs, rows[k]) ||
        Status(cols, rows[k]) == "MISSING"
    {
      NotGreenExactly(cols, dirs, rows[k]);
    }
  }

  // ---------------------------------------------------------------- benign rows

  /** Output-side echoes of earlier promotions and files the pipeline owns. */
  predicate Benign(cols: Columns, dirs: Dirs, row: Row) {
    var c := Classify(cols, dirs, row);
    c == Duplicate || c == Artifacts || c == Blank
  }

  function WithoutBenign(cols: Columns, dirs: Dirs, rows: seq<Row>): seq<Row> {
    if rows == [] then []
    else
      var last := rows[|rows| - 1];
      WithoutBenign(cols, dirs, rows[..|rows| - 1]) + if Benign(cols, dirs, last) then [] else [last]
  }

  lemma {:induction false} BenignRowsUncounted(cols: Columns, dirs: Dirs, rows: seq<Row>, c: Class)
    requires c != Duplicate && c != Artifacts && c != Blank
    ensures CountOf(cols, dirs, WithoutBenign(cols, dirs, rows), c) == CountOf(cols, dirs, rows, c)
  {
    hide Classify;
    if rows != [] {
      var rest, last := rows[..|rows| - 1], rows[|rows| - 1];
      BenignRowsUncounted(cols, dirs, rest, c);
      if Benign(cols, dirs, last) {
        assert WithoutBenign(cols, dirs, rows) == WithoutBenign(cols, dirs, rest);
      } else {
        var kept := WithoutBenign(cols, dirs, rest);
        assert (kept + [last])[..|kept|] == kept;
      }
    }
  }

  /** Two reports that differ only in benign rows, however many and wherever, get the same verdict. */
  lemma BenignRowsKeepVerdict(cols: Columns, dirs: Dirs, a: seq<Row>, b: seq<Row>)
    requires WithoutBenign(cols, dirs, a) == WithoutBenign(cols, dirs, b)
    ensures ResultOf(cols, dirs, a) == ResultOf(cols, dirs, b)
    ensures ClassifyVerify(ResultOf(cols, dirs, a), true) == ClassifyVerify(ResultOf(cols, dirs, b), true)
  {
    hide CountOf, WithoutBenign;
    BenignRowsUncounted(cols, dirs, a, Found);
    BenignRowsUncounted(cols, dirs, b, Found);
    BenignRowsUncounted(cols, dirs, a, Missing);
    BenignRowsUncounted(cols, dirs, b, Missing);
    BenignRowsUncounted(cols, dirs, a, Unmatched);
    BenignRowsUncounted(cols, dirs, b, Unmatched);
    BenignRowsUncounted(cols, dirs, a, Extra);
    BenignRowsUncounted(cols, dirs, b, Extra);
    BenignRowsUncounted(cols, dirs, a, Other);
    BenignRowsUncounted(cols, dirs, b, Other);
  }

  /**
   With an output that is not below the input, a DUPLICATE row below the output is benign
   unless its file lies in an input nested in the output.
   */
  lemma OutputDuplicatesAreBenign(cols: Columns, dirs: Dirs, row: Row)
    requires Rooted(dirs.input) && Rooted(dirs.output) && !(Clean(dirs.input) <= Clean(dirs.output))
    requires Status(cols, row) == "DUPLICATE" && Rooted(RomPath(cols, row)) && Under(dirs.output, RomPath(cols, row))
    ensures Benign(cols, dirs, row) <==> !(Clean(dirs.output) < Clean(dirs.input) <= Clean(RomPath(cols, row)))
  {
    hide Under, Clean, Cell;
    UnderBothExactly(dirs.output, dirs.input, RomPath(cols, row));
  }

  /** So is an UNUSED row for a file the generator writes: the launcher file, its temporaries, media. */
  lemma GeneratorFilesAreBenign(cols: Columns, dirs: Dirs, row: Row, name: string)
    requires Rooted(dirs.input) && Rooted(dirs.output) && !(Clean(dirs.input) <= Clean(dirs.output))
    requires Status(cols, row) == "UNUSED" && Rooted(RomPath(cols, row))
    requires name == Publish.TARGET || Publish.IsTempName(name) || name == "media"
    requires Clean(dirs.output) + [name] <= Clean(RomPath(cols, row))
    requires name != "media" ==> Clean(RomPath(cols, row)) == Clean(dirs.output) + [name]
    ensures Benign(cols, dirs, row) <==> !(Clean(dirs.output) < Clean(dirs.input) <= Clean(RomPath(cols, row)))
  {
    hide Clean, Cell, Publish.IsTempName;
    var base, targ := Clean(dirs.output), Clean(RomPath(cols, row));
    assert base <= targ && targ[|base|] == name;
    UnderIsPrefix(dirs.output, RomPath(cols, row));
    UnderBothExactly(dirs.output, dirs.input, RomPath(cols, row));
    CommonOfPrefix(base, targ);
    assert Rel(dirs.output, RomPath(cols, row)) == Some([] + targ[|base|..]);
    assert targ[|base|..][0] == name;
  }
}
