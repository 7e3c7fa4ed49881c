/**
 Whitespace, lines and the value sanitiser of the launcher-file generator
 (sanitizeValue of pkgs/arcade-webapp/internal/generate/generate.go).

 Splitting and joining are Go's strings.Split and strings.Join; whitespace is Go's
 unicode.IsSpace.
 */
module Lines {
  import opened Text

  /** Go's unicode.IsSpace. */
  predicate IsSpace(c: char) {
    '\t' <= c <= '\r' || c == ' ' || c == '\U{85}' || c == '\U{A0}' || c == '\U{1680}' ||
    '\U{2000}' <= c <= '\U{200A}' || c == '\U{2028}' || c == '\U{2029}' || c == '\U{202F}' ||
    c == '\U{205F}' || c == '\U{3000}'
  }

  /** No whitespace at either end. */
  predicate Trimmed(s: string) {
    s == [] || (!IsSpace(s[0]) && !IsSpace(s[|s| - 1]))
  }

  function TrimLeft(s: string): (r: string)
    ensures r == [] || !IsSpace(r[0])
    ensures s != [] && !IsSpace(s[0]) ==> r == s
    ensures r != [] ==> s != [] && r[|r| - 1] == s[|s| - 1]
    ensures forall c :: c in r ==> c in s
  {
    if s != [] && IsSpace(s[0]) then TrimLeft(s[1..]) else s
  }

  function TrimRight(s: string): (r: string)
    ensures r == [] || !IsSpace(r[|r| - 1])
    ensures s != [] && !IsSpace(s[|s| - 1]) ==> r == s
    ensures r <= s
  {
    if s != [] && IsSpace(s[|s| - 1]) then TrimRight(s[..|s| - 1]) else s
  }

  /** strings.TrimSpace. */
  function TrimSpace(s: string): (r: string)
    ensures Trimmed(r)
    ensures Trimmed(s) ==> r == s
    ensures forall c :: c in r ==> c in s
  {
    TrimRight(TrimLeft(s))
  }

  /** One leading space, as printed after a colon, is trimmed away. */
  lemma TrimLeadingSpace(v: string)
    requires Trimmed(v)
    ensures TrimSpace([' '] + v) == v
  {
    assert ([' '] + v)[1..] == v;
  }

  const NL: char := '\n'

  /** strings.Split(s, "\n"). */
  function SplitLines(s: string): (r: seq<string>)
    ensures |r| >= 1
    ensures forall k :: 0 <= k < |r| ==> NL !in r[k]
    decreases |s|
  {
    var i := IndexOf(s, NL);
    if i < 0 then [s] else [s[..i]] + SplitLines(s[i + 1..])
  }

  /** strings.Join(ls, sep). */
  function Join(ls: seq<string>, sep: string): string {
    if ls == [] then "" else if |ls| == 1 then ls[0] else ls[0] + sep + Join(ls[1..], sep)
  }

  function JoinLines(ls: seq<string>): string { Join(ls, [NL]) }

  lemma IndexAfterPrefix(a: string, b: string, c: char)
    requires c !in a
    ensures IndexOf(a + [c] + b, c) == |a|
  {
    var s := a + [c] + b;
    assert s[|a|] == c;
    var i := IndexOf(s, c);
    assert c in s;
    assert forall k :: 0 <= k < |a| ==> s[k] == a[k] && a[k] in a;
    assert forall k :: 0 <= k < i ==> s[..i][k] == s[k] && s[k] in s[..i];
  }

  lemma {:induction false} SplitOfJoin(ls: seq<string>)
    requires ls != [] && forall k :: 0 <= k < |ls| ==> NL !in ls[k]
    ensures SplitLines(JoinLines(ls)) == ls
  {
    if |ls| > 1 {
      var rest := JoinLines(ls[1..]);
      SplitOfJoin(ls[1..]);
      IndexAfterPrefix(ls[0], rest, NL);
      var s := JoinLines(ls);
      assert s == ls[0] + [NL] + rest;
      assert s[..|ls[0]|] == ls[0] && s[|ls[0]| + 1..] == rest;
    }
  }

  lemma {:induction false} SplitAppend(a: string, b: string)
    ensures SplitLines(a + [NL] + b) == SplitLines(a) + SplitLines(b)
    decreases |a|
  {
    hide IndexOf;
    var i := IndexOf(a, NL);
    var s := a + [NL] + b;
    if i < 0 {
      IndexAfterPrefix(a, b, NL);
      assert s[..|a|] == a && s[|a| + 1..] == b;
    } else {
      var rest := a[i + 1..];
      assert s == a[..i] + [NL] + (rest + [NL] + b);
      IndexAfterPrefix(a[..i], rest + [NL] + b, NL);
      assert s[..i] == a[..i] && s[i + 1..] == rest + [NL] + b;
      SplitAppend(rest, b);
    }
  }

  /** The pieces of every joined part are pieces of the whole. */
  lemma {:induction false} SplitKeepsPieces(ls: seq<string>, k: nat)
    requires k < |ls|
    ensures forall piece :: piece in SplitLines(ls[k]) ==> piece in SplitLines(JoinLines(ls))
  {
    if |ls| > 1 {
      var rest := JoinLines(ls[1..]);
      assert JoinLines(ls) == ls[0] + [NL] + rest;
      SplitAppend(ls[0], rest);
      if k > 0 {
        SplitKeepsPieces(ls[1..], k - 1);
      }
    }
  }

  lemma {:induction false} JoinAppend(a: seq<string>, b: seq<string>, sep: string)
    requires a != [] && b != []
    ensures Join(a + b, sep) == Join(a, sep) + sep + Join(b, sep)
  {
    if |a| == 1 {
      assert (a + b)[1..] == b;
    } else {
      assert (a + b)[1..] == a[1..] + b;
      JoinAppend(a[1..], b, sep);
      assert a[0] + sep + (Join(a[1..], sep) + sep + Join(b, sep)) ==
        a[0] + sep + Join(a[1..], sep) + sep + Join(b, sep);
    }
  }

  // ---------------------------------------------------------------- sanitizeValue

  predicate IsControl(c: char) { c < ' ' || c == '\U{7F}' }

  /** Carriage returns, alone or before a line feed, become line feeds. */
  function UnixNewlines(s: string): string {
    if s == [] then []
    else if s[0] != '\r' then [s[0]] + UnixNewlines(s[1..])
    else if |s| > 1 && s[1] == NL then [NL] + UnixNewlines(s[2..])
    else [NL] + UnixNewlines(s[1..])
  }

  function DropControls(s: string): (r: string)
    ensures forall c :: c in r ==> !IsControl(c)
    ensures (forall c :: c in s ==> !IsControl(c)) ==> r == s
  {
    if s == [] then []
    else
      assert s == [s[0]] + s[1..];
      if IsControl(s[0]) then DropControls(s[1..]) else [s[0]] + DropControls(s[1..])
  }

  /** A part without control characters and outer whitespace, or nothing when that leaves it empty. */
  function CleanPart(part: string): seq<string> {
    var p := TrimSpace(DropControls(part));
    if p == "" then [] else [p]
  }

  /** The non-empty cleaned parts, in order. */
  function CleanParts(parts: seq<string>): seq<string> {
    if parts == [] then [] else CleanPart(parts[0]) + CleanParts(parts[1..])
  }

  function Sanitize(s: string): string {
    Join(CleanParts(SplitLines(UnixNewlines(s))), "; ")
  }

  /** A value that survives the line format: no control character, no outer whitespace. */
  predicate CleanValue(v: string) {
    Trimmed(v) && forall c :: c in v ==> !IsControl(c)
  }

  lemma {:induction false} CleanPartsAreClean(parts: seq<string>)
    ensures forall k :: 0 <= k < |CleanParts(parts)| ==> CleanValue(CleanParts(parts)[k]) && CleanParts(parts)[k] != ""
  {
    if parts != [] {
      CleanPartsAreClean(parts[1..]);
    }
  }

  lemma {:induction false} JoinIsClean(ls: seq<string>)
    requires forall k :: 0 <= k < |ls| ==> CleanValue(ls[k]) && ls[k] != ""
    ensures CleanValue(Join(ls, "; ")) && (ls != [] ==> Join(ls, "; ") != "")
  {
    if |ls| > 1 {
      JoinIsClean(ls[1..]);
      var rest := Join(ls[1..], "; ");
      var s := ls[0] + "; " + rest;
      assert s[0] == ls[0][0] && s[|s| - 1] == rest[|rest| - 1];
      assert forall c :: c in s ==> c in ls[0] || c in "; " || c in rest;
    }
  }

  lemma SanitizedIsClean(s: string)
    ensures CleanValue(Sanitize(s))
  {
    CleanPartsAreClean(SplitLines(UnixNewlines(s)));
    JoinIsClean(CleanParts(SplitLines(UnixNewlines(s))));
  }

  lemma {:induction false} NoReturnsUnchanged(s: string)
    requires '\r' !in s
    ensures UnixNewlines(s) == s
  {
    if s != [] {
      assert s == [s[0]] + s[1..];
      NoReturnsUnchanged(s[1..]);
    }
  }

  /** Sanitising leaves exactly the clean values as they are; in particular it is idempotent. */
  lemma SanitizeFixesCleanValues(s: string)
    ensures Sanitize(s) == s <==> CleanValue(s)
  {
    SanitizedIsClean(s);
    if CleanValue(s) {
      assert IsControl('\r') && IsControl(NL);
      NoReturnsUnchanged(s);
      assert SplitLines(s) == [s];
      assert CleanParts([s]) == if s == "" then [] else [s];
    }
  }

  // ---------------------------------------------------------------- what an unclean value becomes

  /** What surrounds a clean line and goes: spaces and control characters other than line ends. */
  predicate Padding(s: string) {
    forall c :: c in s ==> (IsSpace(c) || IsControl(c)) && c != '\r' && c != NL
  }

  /** A non-empty clean line with padding around it. */
  datatype Padded = Padded(before: string, line: string, after: string) {
    predicate Valid() { Padding(before) && Padding(after) && CleanValue(line) && line != "" }

    function Text(): string { before + line + after }
  }

  predicate LineEnd(s: string) { s == "\n" || s == "\r" || s == "\r\n" }

  ghost predicate AllPadded(ls: seq<Padded>) { forall k :: 0 <= k < |ls| ==> ls[k].Valid() }

  ghost predicate AllLineEnds(ends: seq<string>) { forall k :: 0 <= k < |ends| ==> LineEnd(ends[k]) }

  /** The lines joined by these line ends. */
  function Written(ls: seq<Padded>, ends: seq<string>): string
    requires |ls| == |ends| + 1
  {
    if ends == [] then ls[0].Text() else ls[0].Text() + ends[0] + Written(ls[1..], ends[1..])
  }

  function LinesOf(ls: seq<Padded>): seq<string> { if ls == [] then [] else [ls[0].line] + LinesOf(ls[1..]) }

  function TextsOf(ls: seq<Padded>): seq<string> { if ls == [] then [] else [ls[0].Text()] + TextsOf(ls[1..]) }

  lemma UnixLineEnd(end: string, b: string)
    requires LineEnd(end) && (b == "" || b[0] != NL)
    ensures UnixNewlines(end + b) == [NL] + UnixNewlines(b)
  {
    assert (end + b)[|end|..] == b;
    assert "\r\n"[0] == '\r' && "\r\n"[1] == NL;
    if end == "\r" {
      assert |b| > 0 ==> (end + b)[1] == b[0];
    }
  }

  lemma {:induction false} UnixAppend(a: string, end: string, b: string)
    requires '\r' !in a && LineEnd(end) && (b == "" || b[0] != NL)
    ensures UnixNewlines(a + end + b) == a + [NL] + UnixNewlines(b)
  {
    hide LineEnd;
    if a == "" {
      assert "" + end + b == end + b;
      UnixLineEnd(end, b);
    } else {
      var s := a + end + b;
      assert s[1..] == a[1..] + end + b && s[0] == a[0];
      UnixAppend(a[1..], end, b);
      assert [a[0]] + (a[1..] + [NL] + UnixNewlines(b)) == a + [NL] + UnixNewlines(b);
    }
  }

  lemma PaddedHasNoLineEnd(p: Padded)
    requires p.Valid()
    ensures '\r' !in p.Text() && NL !in p.Text() && p.Text() != ""
  {
    assert IsControl('\r') && IsControl(NL);
  }

  lemma {:induction false} WrittenInUnix(ls: seq<Padded>, ends: seq<string>)
    requires |ls| == |ends| + 1 && AllPadded(ls) && AllLineEnds(ends)
    ensures UnixNewlines(Written(ls, ends)) == JoinLines(TextsOf(ls))
    ensures Written(ls, ends) != "" && Written(ls, ends)[0] != NL
  {
    hide UnixNewlines;
    PaddedHasNoLineEnd(ls[0]);
    var text := ls[0].Text();
    assert text[0] in text;
    if ends == [] {
      NoReturnsUnchanged(text);
      assert ls == [ls[0]] && TextsOf(ls[1..]) == [];
      assert Written(ls, ends)[0] == text[0];
    } else {
      WrittenInUnix(ls[1..], ends[1..]);
      UnixAppend(text, ends[0], Written(ls[1..], ends[1..]));
      assert Written(ls, ends)[0] == text[0];
      assert TextsOf(ls)[1..] == TextsOf(ls[1..]) && |TextsOf(ls[1..])| >= 1;
    }
  }

  lemma {:induction false} TrimLeftPadding(p: string, s: string)
    requires (forall c :: c in p ==> IsSpace(c)) && s != "" && !IsSpace(s[0])
    ensures TrimLeft(p + s) == s
  {
    if p == "" {
      assert p + s == s;
    } else {
      assert p[0] in p && (p + s)[1..] == p[1..] + s;
      TrimLeftPadding(p[1..], s);
    }
  }

  lemma {:induction false} TrimRightPadding(s: string, p: string)
    requires (forall c :: c in p ==> IsSpace(c)) && s != "" && !IsSpace(s[|s| - 1])
    ensures TrimRight(s + p) == s
  {
    if p == "" {
      assert s + p == s;
    } else {
      assert p[|p| - 1] in p && (s + p)[..|s + p| - 1] == s + p[..|p| - 1];
      TrimRightPadding(s, p[..|p| - 1]);
    }
  }

  lemma {:induction false} DropAppend(a: string, b: string)
    ensures DropControls(a + b) == DropControls(a) + DropControls(b)
  {
    if a == "" {
      assert a + b == b;
    } else {
      assert (a + b)[1..] == a[1..] + b;
      DropAppend(a[1..], b);
    }
  }

  lemma {:induction false} DroppedIsSpace(p: string)
    requires Padding(p)
    ensures forall c :: c in DropControls(p) ==> IsSpace(c)
  {
    if p != "" {
      assert p[0] in p && forall c :: c in p[1..] ==> c in p;
      DroppedIsSpace(p[1..]);
    }
  }

  lemma PaddingGoes(p: Padded)
    requires p.Valid()
    ensures CleanPart(p.Text()) == [p.line]
  {
    var a, b := DropControls(p.before), DropControls(p.after);
    DropAppend(p.before + p.line, p.after);
    DropAppend(p.before, p.line);
    DroppedIsSpace(p.before);
    DroppedIsSpace(p.after);
    assert DropControls(p.Text()) == a + (p.line + b) by {
      Assoc(a, p.line, b);
    }
    TrimLeftPadding(a, p.line + b);
    TrimRightPadding(p.line, b);
  }

  lemma {:induction false} TextsAreLines(ls: seq<Padded>)
    requires AllPadded(ls)
    ensures CleanParts(TextsOf(ls)) == LinesOf(ls)
    ensures |TextsOf(ls)| == |ls| && forall k :: 0 <= k < |ls| ==> TextsOf(ls)[k] == ls[k].Text()
  {
    hide CleanPart;
    if ls != [] {
      PaddingGoes(ls[0]);
      TextsAreLines(ls[1..]);
      assert TextsOf(ls)[1..] == TextsOf(ls[1..]);
    }
  }

  /**
   Whatever ends its lines and whatever padding is around them, a text becomes its lines
   joined by a semicolon and a space.
   */
  lemma SanitizedLines(ls: seq<Padded>, ends: seq<string>)
    requires |ls| == |ends| + 1 && AllPadded(ls) && AllLineEnds(ends)
    ensures Sanitize(Written(ls, ends)) == Join(LinesOf(ls), "; ")
  {
    hide UnixNewlines, CleanParts, SplitLines, Written;
    WrittenInUnix(ls, ends);
    TextsAreLines(ls);
    forall k | 0 <= k < |ls|
      ensures NL !in TextsOf(ls)[k]
    {
      PaddedHasNoLineEnd(ls[k]);
    }
    SplitOfJoin(TextsOf(ls));
  }

  lemma SingleLine(s: string)
    requires '\r' !in s && NL !in s
    ensures Sanitize(s) == Join(CleanPart(s), "; ")
  {
    hide CleanPart;
    NoReturnsUnchanged(s);
    assert SplitLines(s) == [s];
    assert CleanParts([s]) == CleanPart(s) + [] == CleanPart(s);
  }

  lemma DroppedControl(a: string, c: char, b: string)
    requires IsControl(c)
    ensures DropControls(a + [c] + b) == DropControls(a + b)
  {
    DropAppend(a + [c], b);
    DropAppend(a, [c]);
    DropAppend(a, b);
    assert DropControls([c]) == "" && DropControls(a) + "" == DropControls(a);
  }

  /** Within a line a control character counts for nothing, wherever it is. */
  lemma ControlGoes(a: string, c: char, b: string)
    requires IsControl(c) && c != '\r' && c != NL
    requires '\r' !in a + b && NL !in a + b
    ensures Sanitize(a + [c] + b) == Sanitize(a + b)
  {
    hide Sanitize, DropControls, TrimSpace, IsControl;
    assert forall d :: d in a + [c] + b ==> d == c || d in a + b;
    SingleLine(a + [c] + b);
    SingleLine(a + b);
    DroppedControl(a, c, b);
  }

  lemma Assoc<T>(a: seq<T>, b: seq<T>, c: seq<T>)
    ensures a + (b + c) == (a + b) + c
  {
  }

  lemma {:induction false} CleanPartsSnoc(parts: seq<string>, last: string)
    ensures CleanParts(parts + [last]) == CleanParts(parts) + CleanPart(last)
  {
    if parts == [] {
      assert parts + [last] == [last] && [last][1..] == [];
    } else {
      var all, rest := parts + [last], parts[1..];
      CleanPartsSnoc(rest, last);
      assert all[1..] == rest + [last] && all[0] == parts[0];
      Assoc(CleanPart(parts[0]), CleanParts(rest), CleanPart(last));
    }
  }

  /** The loop of sanitizeValue. */
  method SanitizeValue(s: string) returns (r: string)
    ensures r == Sanitize(s)
  {
    var parts := SplitLines(UnixNewlines(s));
    var out := KeepNonEmpty(parts);
    r := Join(out, "; ");
  }

  method KeepNonEmpty(parts: seq<string>) returns (out: seq<string>)
    ensures out == CleanParts(parts)
  {
    out := [];
    for k := 0 to |parts|
      invariant out == CleanParts(parts[..k])
    {
      assert parts[..k + 1] == parts[..k] + [parts[k]];
      CleanPartsSnoc(parts[..k], parts[k]);
      var p := TrimSpace(DropControls(parts[k]));
      if p != "" {
        out := out + [p];
      }
    }
    assert parts[..|parts|] == parts;
  }
}
