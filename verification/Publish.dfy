module Publish {
  // One generation pass over the served trees (run, writeAtomic and sweepStaleTemps of
  // pkgs/arcade-webapp/internal/generate/generate.go): build, validate, write.
  //
  // The disk records every state it goes through, so a statement about all recorded
  // states is a statement about every point at which the process can be killed.

  import opened Options
  import opened Text
  import opened Lines
  import opened LauncherFile
  import opened LauncherLaws
  import C = CustomViews
  import RoundTrip
  import P = Pegasus

  const TARGET := "metadata.pegasus.txt"

  datatype Path = Path(dir: string, name: string)

  function TargetOf(dir: string): Path { Path(dir, TARGET) }

  /** stale: last modified before this process started. */
  datatype Node = Node(bytes: string, stale: bool, regular: bool)

  type Files = map<Path, Node>

  // ---------------------------------------------------------------- temporary names

  const TEMP_PREFIX := "." + TARGET + "."
  const TEMP_SUFFIX := ".tmp"

  /** tempSiblingRe: the prefix, at least one character, none a line feed, and the suffix. */
  predicate IsTempName(name: string) {
    HasPrefix(name, TEMP_PREFIX) && HasSuffix(name, TEMP_SUFFIX) && |name| > |TEMP_PREFIX| + |TEMP_SUFFIX| &&
    NL !in name[|TEMP_PREFIX|..|name| - |TEMP_SUFFIX|]
  }

  predicate IsDigit(c: char) { '0' <= c <= '9' }

  function DigitValue(c: char): nat
    requires IsDigit(c)
  {
    c as int - '0' as int
  }

  function Digits(s: string): nat
    requires forall c :: c in s ==> IsDigit(c)
  {
    if s == "" then 0
    else
      assert s[|s| - 1] in s;
      Digits(s[..|s| - 1]) * 10 + DigitValue(s[|s| - 1])
  }

  const INT_LIMIT: nat := 0x8000_0000_0000_0000

  /** strconv.Atoi where it succeeds with a positive result, else 0. */
  function PositiveInt(s: string): nat {
    var digits := if s != "" && s[0] == '+' then s[1..] else s;
    if digits != "" && (forall c :: c in digits ==> IsDigit(c)) && Digits(digits) < INT_LIMIT then Digits(digits) else 0
  }

  /** tempOwnerPid. */
  function TempOwner(name: string): nat {
    var rest := if HasPrefix(name, TEMP_PREFIX) then name[|TEMP_PREFIX|..] else name;
    var mid := TrimSuffix(rest, TEMP_SUFFIX);
    var i := IndexOf(mid, '.');
    PositiveInt(if i < 0 then mid else mid[..i])
  }

  function TempName(pid: string, rand: string): string {
    TEMP_PREFIX + (pid + "." + rand) + TEMP_SUFFIX
  }

  lemma TempNameIsTemp(pid: string, rand: string)
    requires NL !in pid && NL !in rand
    ensures IsTempName(TempName(pid, rand))
  {
    var name, mid := TempName(pid, rand), pid + "." + rand;
    assert name[|TEMP_PREFIX|..|name| - |TEMP_SUFFIX|] == mid;
  }

  lemma TargetIsNoTemp()
    ensures !IsTempName(TARGET)
  {
    assert TARGET[0] == 'm' && TEMP_PREFIX[0] == '.';
  }

  /** The process number in a temporary name is read back, and a name without one belongs to no process. */
  lemma TempOwnerExactly(pid: string, rand: string)
    requires '.' !in pid && pid != "" && pid[0] != '+'
    ensures TempOwner(TempName(pid, rand)) ==
      if (forall c :: c in pid ==> IsDigit(c)) && Digits(pid) < 0x8000_0000_0000_0000 then Digits(pid) else 0
  {
    var name, mid := TempName(pid, rand), pid + "." + rand;
    assert name[|TEMP_PREFIX|..] == mid + TEMP_SUFFIX;
    assert (mid + TEMP_SUFFIX)[|mid|..] == TEMP_SUFFIX && (mid + TEMP_SUFFIX)[..|mid|] == mid;
    IndexAfterPrefix(pid, rand, '.');
    assert mid == pid + ['.'] + rand && mid[..|pid|] == pid;
  }

  // ---------------------------------------------------------------- states of the disk

  ghost predicate Same(a: Files, b: Files, q: Path) {
    (q in a <==> q in b) && (q in a ==> a[q] == b[q])
  }

  /** Apart from temporary siblings nothing differs. */
  ghost predicate OnlyTempsDiffer(a: Files, b: Files) {
    forall q: Path :: !IsTempName(q.name) ==> Same(a, b, q)
  }

  ghost predicate Holds(h: Files, q: Path, bytes: string) { q in h && h[q].bytes == bytes }

  /** Apart from temporary siblings, at most the target differs, and then it holds exactly data. */
  ghost predicate Midway(a: Files, h: Files, target: Path, data: string) {
    forall q: Path :: !IsTempName(q.name) ==> Same(a, h, q) || (q == target && Holds(h, q, data))
  }

  class Disk {
    var files: Files
    ghost var history: seq<Files> // every state so far; the last one is current

    constructor (files: Files)
      ensures Valid() && this.files == files && history == [files]
    {
      this.files, history := files, [files];
    }

    ghost predicate Valid()
      reads this
    {
      history != [] && history[|history| - 1] == files
    }

    method Put(q: Path, node: Node)
      requires Valid()
      modifies this
      ensures Valid() && files == old(files)[q := node] && history == old(history) + [files]
    {
      files := files[q := node];
      history := history + [files];
    }

    /** os.Remove, which may fail. */
    method Remove(q: Path, ok: bool)
      requires Valid()
      modifies this
      ensures Valid() && files == (if ok then old(files) - {q} else old(files)) && history == old(history) + [files]
    {
      if ok {
        files := files - {q};
      }
      history := history + [files];
    }

    method Rename(from: Path, to: Path)
      requires Valid() && from in files && from != to
      modifies this
      ensures Valid() && files == (old(files) - {from})[to := old(files)[from]] && history == old(history) + [files]
    {
      files := (files - {from})[to := files[from]];
      history := history + [files];
    }
  }

  /** The states recorded after position n all satisfy Midway. */
  ghost predicate MidwaySince(a: Files, history: seq<Files>, n: nat, target: Path, data: string) {
    forall k :: n <= k < |history| ==> Midway(a, history[k], target, data)
  }

  /** How the steps on one temporary file turn out; written: how many bytes arrive. */
  datatype Weather = Weather(rand: string, created: bool, written: nat, synced: bool, closed: bool, modeSet: bool,
                             renamed: bool, removed: bool)

  predicate AllWell(w: Weather, data: string) {
    w.created && w.written >= |data| && w.synced && w.closed && w.modeSet && w.renamed
  }

  function TempOf(dir: string, pid: string, w: Weather): Path { Path(dir, TempName(pid, w.rand)) }

  /** Creates, writes, syncs, closes, chmods and renames the temporary file; succeeds exactly when each step does. */
  method WriteAtomic(disk: Disk, dir: string, data: string, pid: string, w: Weather) returns (ok: bool)
    requires disk.Valid() && NL !in pid && NL !in w.rand
    modifies disk
    ensures disk.Valid() && old(disk.history) <= disk.history
    ensures MidwaySince(old(disk.files), disk.history, |old(disk.history)|, TargetOf(dir), data)
    ensures ok ==> Holds(disk.files, TargetOf(dir), data) && Midway(old(disk.files), disk.files, TargetOf(dir), data)
    ensures !ok ==> OnlyTempsDiffer(old(disk.files), disk.files)
    ensures !ok && w.removed ==> disk.files == old(disk.files)
    ensures ok <==> AllWell(w, data) && TempOf(dir, pid, w) !in old(disk.files)
    ensures forall q: Path :: q.dir != dir ==> Same(old(disk.files), disk.files, q)
  {
    hide IsTempName;
    TargetIsNoTemp();
    var temp := TempOf(dir, pid, w);
    TempNameIsTemp(pid, w.rand);
    if !w.created || temp in disk.files {
      return false;
    }
    disk.Put(temp, Node("", false, true));
    var wrote := if w.written < |data| then w.written else |data|;
    disk.Put(temp, Node(data[..wrote], false, true));
    if wrote < |data| || !w.synced || !w.closed || !w.modeSet || !w.renamed {
      disk.Remove(temp, w.removed);
      return false;
    }
    assert data[..wrote] == data;
    disk.Rename(temp, TargetOf(dir));
    return true;
  }

  /** The residue sweepStaleTemps may remove. */
  predicate Reclaimable(q: Path, node: Node, pid: nat) {
    IsTempName(q.name) && node.regular && TempOwner(q.name) != pid && node.stale
  }

  /** Of the names this program gives, those of other processes are reclaimed, once stale; its own never are. */
  lemma ReclaimedExactly(dir: string, owner: string, rand: string, node: Node, pid: nat)
    requires owner != "" && rand != "" && NL !in rand && forall c :: c in owner ==> IsDigit(c)
    ensures Reclaimable(Path(dir, TempName(owner, rand)), node, pid) <==>
      node.regular && node.stale && pid != if Digits(owner) < 0x8000_0000_0000_0000 then Digits(owner) else 0
  {
    hide Digits;
    assert owner[0] in owner && !IsDigit('.') && !IsDigit(NL) && !IsDigit('+');
    TempOwnerExactly(owner, rand);
    TempNameIsTemp(owner, rand);
  }

  ghost predicate Swept(a: Files, b: Files, pid: nat) {
    (forall q :: q in b ==> q in a && b[q] == a[q]) &&
    forall q :: q in a && q !in b ==> Reclaimable(q, a[q], pid)
  }

  /** What a sweep of these directories removes when only the removals of stuck fail. */
  ghost predicate SweptExactly(a: Files, b: Files, dirs: seq<string>, pid: nat, stuck: set<Path>) {
    forall q :: q in b <==> q in a && !(q.dir in dirs && Reclaimable(q, a[q], pid) && q !in stuck)
  }

  method SweepDir(disk: Disk, dir: string, pid: nat, stuck: set<Path>)
    requires disk.Valid()
    modifies disk
    ensures disk.Valid() && old(disk.history) <= disk.history && Swept(old(disk.files), disk.files, pid)
    ensures forall k :: |old(disk.history)| <= k < |disk.history| ==> Swept(old(disk.files), disk.history[k], pid)
    ensures SweptExactly(old(disk.files), disk.files, [dir], pid, stuck)
  {
    hide Reclaimable;
    var todo := set q | q in disk.files && q.dir == dir;
    while todo != {}
      invariant disk.Valid() && old(disk.history) <= disk.history && Swept(old(disk.files), disk.files, pid)
      invariant forall k :: |old(disk.history)| <= k < |disk.history| ==> Swept(old(disk.files), disk.history[k], pid)
      invariant todo <= disk.files.Keys && forall q :: q in todo ==> q.dir == dir
      invariant forall q :: q in disk.files <==> (
        q in old(disk.files) && !(q.dir == dir && q !in todo && Reclaimable(q, old(disk.files)[q], pid) && q !in stuck))
      decreases |todo|
    {
      var q :| q in todo;
      todo := todo - {q};
      if Reclaimable(q, disk.files[q], pid) {
        disk.Remove(q, q !in stuck);
      }
    }
  }

  method SweepStaleTemps(disk: Disk, dirs: seq<string>, pid: nat, stuck: set<Path>)
    requires disk.Valid()
    modifies disk
    ensures disk.Valid() && old(disk.history) <= disk.history && Swept(old(disk.files), disk.files, pid)
    ensures forall k :: |old(disk.history)| <= k < |disk.history| ==> Swept(old(disk.files), disk.history[k], pid)
    ensures SweptExactly(old(disk.files), disk.files, dirs, pid, stuck)
  {
    hide Reclaimable;
    for n := 0 to |dirs|
      invariant disk.Valid() && old(disk.history) <= disk.history && Swept(old(disk.files), disk.files, pid)
      invariant forall k :: |old(disk.history)| <= k < |disk.history| ==> Swept(old(disk.files), disk.history[k], pid)
      invariant SweptExactly(old(disk.files), disk.files, dirs[..n], pid, stuck)
    {
      SweepDir(disk, dirs[n], pid, stuck);
      assert forall d :: d in dirs[..n + 1] <==> d in dirs[..n] || d == dirs[n];
    }
    assert dirs[..|dirs|] == dirs;
  }

  lemma SweptKeepsFiles(a: Files, b: Files, pid: nat)
    requires Swept(a, b, pid)
    ensures OnlyTempsDiffer(a, b)
  {
  }

  // ---------------------------------------------------------------- what a pass is about to write

  /** One row of the systems table with what the store and the filesystem answer about it. */
  datatype Source = Source(sys: System, exo: bool, dir: string, games: Option<seq<Entry>>, dirThere: bool)

  datatype Payload = Payload(key: string, dir: string, bytes: string)

  datatype Verdict = Skipped | Refused | Built(payload: Payload)

  type Customs = map<string, seq<CustomView>>

  function ViewsOf(customs: Customs, key: string): seq<CustomView> {
    if key in customs then customs[key] else []
  }

  function Build(src: Source, customs: Customs): Verdict {
    if src.exo then Skipped
    else if src.games.None? then Refused
    else if src.games.value == [] then Skipped
    else if !src.dirThere then Refused
    else
      match Rendered(src.sys, src.games.value, ViewsOf(customs, src.sys.key))
      case None => Refused
      case Some(bytes) => Built(Payload(src.sys.key, src.dir, bytes))
  }

  function Payloads(sources: seq<Source>, customs: Customs): seq<Payload> {
    if sources == [] then []
    else
      var last := Build(sources[|sources| - 1], customs);
      Payloads(sources[..|sources| - 1], customs) + if last.Built? then [last.payload] else []
  }

  function RefusedKeys(sources: seq<Source>, customs: Customs): seq<string> {
    if sources == [] then []
    else
      var src := sources[|sources| - 1];
      RefusedKeys(sources[..|sources| - 1], customs) + if Build(src, customs).Refused? then [src.sys.key] else []
  }

  /** The strict parser and the validator take these bytes. */
  ghost predicate Accepted(bytes: string) {
    P.ParseFile(bytes).Ok? && P.ValidFile(P.ParseFile(bytes).value)
  }

  ghost function AcceptedOnly(ps: seq<Payload>): seq<Payload> {
    if ps == [] then []
    else AcceptedOnly(ps[..|ps| - 1]) + if Accepted(ps[|ps| - 1].bytes) then [ps[|ps| - 1]] else []
  }

  ghost function RejectedKeys(ps: seq<Payload>): seq<string> {
    if ps == [] then []
    else RejectedKeys(ps[..|ps| - 1]) + if Accepted(ps[|ps| - 1].bytes) then [] else [ps[|ps| - 1].key]
  }

  datatype Outcome = Failed(key: string) | Generated(key: string)

  function Failures(keys: seq<string>): seq<Outcome> {
    seq(|keys|, k requires 0 <= k < |keys| => Failed(keys[k]))
  }

  // ---------------------------------------------------------------- the three phases

  method BuildPhase(sources: seq<Source>, customs: Customs) returns (payloads: seq<Payload>, failed: seq<Outcome>)
    ensures payloads == Payloads(sources, customs) && failed == Failures(RefusedKeys(sources, customs))
  {
    hide Rendered;
    payloads, failed := [], [];
    for n := 0 to |sources|
      invariant payloads == Payloads(sources[..n], customs)
      invariant failed == Failures(RefusedKeys(sources[..n], customs))
    {
      var src := sources[n];
      assert sources[..n + 1][..n] == sources[..n] && sources[..n + 1][n] == src;
      if src.exo {
        continue;
      }
      if src.games.None? {
        failed := failed + [Failed(src.sys.key)];
        continue;
      }
      if src.games.value == [] {
        continue;
      }
      if !src.dirThere {
        failed := failed + [Failed(src.sys.key)];
        continue;
      }
      var text, counts := RenderSystem(src.sys, src.games.value, ViewsOf(customs, src.sys.key));
      if text.None? {
        failed := failed + [Failed(src.sys.key)];
        continue;
      }
      payloads := payloads + [Payload(src.sys.key, src.dir, text.value)];
    }
    assert sources[..|sources|] == sources;
  }

  method ValidatePhase(payloads: seq<Payload>) returns (writeables: seq<Payload>, failed: seq<Outcome>, validated: bool)
    ensures writeables == AcceptedOnly(payloads) && failed == Failures(RejectedKeys(payloads))
    ensures validated <==> failed == []
  {
    hide P.ParseFile, P.ValidFile;
    writeables, failed, validated := [], [], true;
    for n := 0 to |payloads|
      invariant writeables == AcceptedOnly(payloads[..n]) && failed == Failures(RejectedKeys(payloads[..n]))
      invariant validated <==> failed == []
    {
      var p := payloads[n];
      assert payloads[..n + 1][..n] == payloads[..n] && payloads[..n + 1][n] == p;
      var parsed := P.Parse(p.bytes);
      var fine := false;
      if parsed.Ok? {
        fine := P.Validate(parsed.value);
      }
      if fine {
        writeables := writeables + [p];
      } else {
        validated, failed := false, failed + [Failed(p.key)];
      }
    }
    assert payloads[..|payloads|] == payloads;
  }

  /** Each target holds what it held before the pass or the complete bytes of an accepted payload for it. */
  ghost predicate Published(start: Files, h: Files, writeables: seq<Payload>) {
    forall q: Path :: !IsTempName(q.name) ==> Same(start, h, q) || HoldsOneOf(h, q, writeables)
  }

  ghost predicate HoldsOneOf(h: Files, q: Path, writeables: seq<Payload>) {
    exists i :: 0 <= i < |writeables| && q == TargetOf(writeables[i].dir) && Holds(h, q, writeables[i].bytes)
  }

  ghost predicate PublishedSince(start: Files, history: seq<Files>, n: nat, writeables: seq<Payload>) {
    forall k :: n <= k < |history| ==> Published(start, history[k], writeables)
  }

  lemma MidwayIsPublished(start: Files, a: Files, h: Files, writeables: seq<Payload>, i: nat)
    requires i < |writeables| && Published(start, a, writeables)
    requires Midway(a, h, TargetOf(writeables[i].dir), writeables[i].bytes)
    ensures Published(start, h, writeables)
  {
    hide IsTempName, Holds;
    forall q: Path | !IsTempName(q.name)
      ensures Same(start, h, q) || HoldsOneOf(h, q, writeables)
    {
      if Same(a, h, q) {
        SameHolds(start, a, h, q, writeables);
      }
    }
  }

  lemma SameHolds(start: Files, a: Files, h: Files, q: Path, writeables: seq<Payload>)
    requires Same(a, h, q) && (Same(start, a, q) || HoldsOneOf(a, q, writeables))
    ensures Same(start, h, q) || HoldsOneOf(h, q, writeables)
  {
    if HoldsOneOf(a, q, writeables) {
      var i :| 0 <= i < |writeables| && q == TargetOf(writeables[i].dir) && Holds(a, q, writeables[i].bytes);
      assert Holds(h, q, writeables[i].bytes);
    }
  }

  lemma TempsArePublished(start: Files, a: Files, h: Files, writeables: seq<Payload>)
    requires Published(start, a, writeables) && OnlyTempsDiffer(a, h)
    ensures Published(start, h, writeables)
  {
    hide IsTempName, Holds;
    forall q: Path | !IsTempName(q.name)
      ensures Same(start, h, q) || HoldsOneOf(h, q, writeables)
    {
      SameHolds(start, a, h, q, writeables);
    }
  }

  ghost predicate DistinctDirs(ps: seq<Payload>) {
    forall j, k :: 0 <= j < k < |ps| ==> ps[j].dir != ps[k].dir
  }

  /** The outcomes of the write phase so far: a generated payload is on the disk unless this is a dry run. */
  ghost predicate Delivered(files: Files, writeables: seq<Payload>, outcomes: seq<Outcome>) {
    |outcomes| <= |writeables| &&
    forall i :: 0 <= i < |outcomes| && outcomes[i].Generated? ==>
      Holds(files, TargetOf(writeables[i].dir), writeables[i].bytes)
  }

  ghost predicate KeysMatch(writeables: seq<Payload>, outcomes: seq<Outcome>) {
    |outcomes| <= |writeables| && forall i :: 0 <= i < |outcomes| ==> outcomes[i].key == writeables[i].key
  }

  lemma StillDelivered(a: Files, h: Files, writeables: seq<Payload>, outcomes: seq<Outcome>, i: nat)
    requires i < |writeables| && |outcomes| == i && DistinctDirs(writeables) && Delivered(a, writeables, outcomes)
    requires Midway(a, h, TargetOf(writeables[i].dir), writeables[i].bytes)
    ensures Delivered(h, writeables, outcomes)
  {
    hide IsTempName;
    TargetIsNoTemp();
    forall j | 0 <= j < |outcomes| && outcomes[j].Generated?
      ensures Holds(h, TargetOf(writeables[j].dir), writeables[j].bytes)
    {
      assert !IsTempName(TargetOf(writeables[j].dir).name);
    }
  }

  predicate NamesOk(weather: nat -> Weather, n: nat) { forall i :: 0 <= i < n ==> NL !in weather(i).rand }

  /** Each outcome says whether every step of its write went well, given unused temporary names. */
  ghost predicate OutcomesExact(start: Files, writeables: seq<Payload>, pid: string, weather: nat -> Weather,
                                outcomes: seq<Outcome>)
  {
    |outcomes| <= |writeables| &&
    forall i :: 0 <= i < |outcomes| && TempOf(writeables[i].dir, pid, weather(i)) !in start ==>
      (outcomes[i].Generated? <==> AllWell(weather(i), writeables[i].bytes))
  }

  /** Directories still to be written to are as they were. */
  ghost predicate OthersAsBefore(start: Files, h: Files, writeables: seq<Payload>, n: nat) {
    forall i, q: Path :: n <= i < |writeables| && q.dir == writeables[i].dir ==> Same(start, h, q)
  }

  lemma OneMoreExact(start: Files, a: Files, writeables: seq<Payload>, pid: string, weather: nat -> Weather,
                     outcomes: seq<Outcome>, last: Outcome)
    requires |outcomes| < |writeables| && OutcomesExact(start, writeables, pid, weather, outcomes)
    requires OthersAsBefore(start, a, writeables, |outcomes|)
    requires last.Generated? <==>
      AllWell(weather(|outcomes|), writeables[|outcomes|].bytes) &&
      TempOf(writeables[|outcomes|].dir, pid, weather(|outcomes|)) !in a
    ensures OutcomesExact(start, writeables, pid, weather, outcomes + [last])
  {
    hide AllWell, TempOf;
    var i := |outcomes|;
    assert Same(start, a, Path(writeables[i].dir, TempName(pid, weather(i).rand)));
    assert TempOf(writeables[i].dir, pid, weather(i)) == Path(writeables[i].dir, TempName(pid, weather(i).rand)) by {
      TempIs(writeables[i].dir, pid, weather(i));
    }
  }

  lemma TempIs(dir: string, pid: string, w: Weather)
    ensures TempOf(dir, pid, w) == Path(dir, TempName(pid, w.rand))
  {
  }

  lemma OthersStayAsBefore(start: Files, a: Files, h: Files, writeables: seq<Payload>, n: nat)
    requires n < |writeables| && DistinctDirs(writeables) && OthersAsBefore(start, a, writeables, n)
    requires forall q: Path :: q.dir != writeables[n].dir ==> Same(a, h, q)
    ensures OthersAsBefore(start, h, writeables, n + 1)
  {
    forall i, q: Path | n + 1 <= i < |writeables| && q.dir == writeables[i].dir
      ensures Same(start, h, q)
    {
      assert Same(start, a, q) && Same(a, h, q);
    }
  }

  method WritePhase(disk: Disk, writeables: seq<Payload>, pid: string, weather: nat -> Weather)
    returns (outcomes: seq<Outcome>)
    requires disk.Valid() && NL !in pid && NamesOk(weather, |writeables|)
    modifies disk
    ensures disk.Valid() && old(disk.history) <= disk.history
    ensures PublishedSince(old(disk.files), disk.history, |old(disk.history)|, writeables)
    ensures Published(old(disk.files), disk.files, writeables)
    ensures |outcomes| == |writeables| && KeysMatch(writeables, outcomes)
    ensures DistinctDirs(writeables) ==> Delivered(disk.files, writeables, outcomes)
    ensures DistinctDirs(writeables) ==> OutcomesExact(old(disk.files), writeables, pid, weather, outcomes)
  {
    hide IsTempName, Published, Midway, OnlyTempsDiffer, Delivered, DistinctDirs, OutcomesExact, OthersAsBefore, TempOf;
    hide AllWell;
    outcomes := [];
    NothingWritten(disk.files, writeables);
    NothingDone(disk.files, writeables, pid, weather);
    for i := 0 to |writeables|
      invariant disk.Valid() && old(disk.history) <= disk.history
      invariant PublishedSince(old(disk.files), disk.history, |old(disk.history)|, writeables)
      invariant Published(old(disk.files), disk.files, writeables)
      invariant |outcomes| == i && KeysMatch(writeables, outcomes)
      invariant DistinctDirs(writeables) ==> Delivered(disk.files, writeables, outcomes)
      invariant DistinctDirs(writeables) ==>
        OutcomesExact(old(disk.files), writeables, pid, weather, outcomes) &&
        OthersAsBefore(old(disk.files), disk.files, writeables, i)
    {
      var p := writeables[i];
      ghost var before, n := disk.files, |disk.history|;
      var ok := WriteAtomic(disk, p.dir, p.bytes, pid, weather(i));
      HistoryPublished(old(disk.files), before, disk.history, n, writeables, i);
      if !ok {
        TempsAreMidway(before, disk.files, TargetOf(p.dir), p.bytes);
      }
      MidwayIsPublished(old(disk.files), before, disk.files, writeables, i);
      if DistinctDirs(writeables) {
        StillDelivered(before, disk.files, writeables, outcomes, i);
        OneMoreDelivered(disk.files, writeables, outcomes, if ok then Generated(p.key) else Failed(p.key));
        OneMoreExact(old(disk.files), before, writeables, pid, weather, outcomes,
                     if ok then Generated(p.key) else Failed(p.key));
        OthersStayAsBefore(old(disk.files), before, disk.files, writeables, i);
      }
      outcomes := outcomes + [if ok then Generated(p.key) else Failed(p.key)];
    }
  }

  lemma NothingWritten(files: Files, writeables: seq<Payload>)
    ensures Published(files, files, writeables) && Delivered(files, writeables, [])
  {
  }

  lemma NothingDone(files: Files, writeables: seq<Payload>, pid: string, weather: nat -> Weather)
    ensures OutcomesExact(files, writeables, pid, weather, []) && OthersAsBefore(files, files, writeables, 0)
  {
  }

  lemma TempsAreMidway(a: Files, h: Files, target: Path, data: string)
    requires OnlyTempsDiffer(a, h)
    ensures Midway(a, h, target, data)
  {
    hide IsTempName;
  }

  lemma HistoryPublished(start: Files, a: Files, history: seq<Files>, n: nat, writeables: seq<Payload>, i: nat)
    requires i < |writeables| && Published(start, a, writeables)
    requires MidwaySince(a, history, n, TargetOf(writeables[i].dir), writeables[i].bytes)
    ensures PublishedSince(start, history, n, writeables)
  {
    hide Midway, Published;
    forall k | n <= k < |history|
      ensures Published(start, history[k], writeables)
    {
      MidwayIsPublished(start, a, history[k], writeables, i);
    }
  }

  lemma OneMoreDelivered(files: Files, writeables: seq<Payload>, outcomes: seq<Outcome>, last: Outcome)
    requires Delivered(files, writeables, outcomes) && |outcomes| < |writeables|
    requires last.Generated? ==> Holds(files, TargetOf(writeables[|outcomes|].dir), writeables[|outcomes|].bytes)
    ensures Delivered(files, writeables, outcomes + [last])
  {
  }

  /** Refused systems, then rejected ones, then one outcome for each payload of the write phase. */
  ghost predicate Reported(files: Files, sources: seq<Source>, customs: Customs, dryRun: bool, outcomes: seq<Outcome>) {
    var refused := Failures(RefusedKeys(sources, customs)) + Failures(RejectedKeys(Payloads(sources, customs)));
    var writeables := AcceptedOnly(Payloads(sources, customs));
    refused <= outcomes && KeysMatch(writeables, outcomes[|refused|..]) && |outcomes| == |refused| + |writeables| &&
    (!dryRun && DistinctDirs(writeables) ==> Delivered(files, writeables, outcomes[|refused|..]))
  }

  /** The outcomes of the write phase: all generated in a dry run, else as the writes went. */
  ghost predicate WrittenExactly(start: Files, sources: seq<Source>, customs: Customs, dryRun: bool, pid: string,
                                 weather: nat -> Weather, outcomes: seq<Outcome>)
  {
    var writeables := AcceptedOnly(Payloads(sources, customs));
    |outcomes| >= |writeables| &&
    var written := outcomes[|outcomes| - |writeables|..];
    (dryRun ==> forall i :: 0 <= i < |written| ==> written[i].Generated?) &&
    (!dryRun && DistinctDirs(writeables) ==> OutcomesExact(start, writeables, pid, weather, written))
  }

  /** No reclaimable residue is left in a directory a payload was built for, unless it could not be removed. */
  ghost predicate NoResidue(files: Files, payloads: seq<Payload>, pid: nat, stuck: set<Path>) {
    forall q, k :: q in files && 0 <= k < |payloads| && payloads[k].dir == q.dir && Reclaimable(q, files[q], pid) ==>
      q in stuck
  }

  lemma NothingLeft(a: Files, b: Files, payloads: seq<Payload>, dirs: seq<string>, pid: nat, stuck: set<Path>)
    requires Swept(a, b, pid) && SweptExactly(a, b, dirs, pid, stuck)
    requires forall k :: 0 <= k < |payloads| ==> payloads[k].dir in dirs
    ensures NoResidue(b, payloads, pid, stuck)
  {
    hide Reclaimable;
  }

  lemma NoDirsNoResidue(files: Files, payloads: seq<Payload>, pid: nat, stuck: set<Path>)
    requires payloads == []
    ensures NoResidue(files, payloads, pid, stuck)
  {
  }

  lemma {:induction false} FewerAccepted(ps: seq<Payload>)
    ensures |AcceptedOnly(ps)| <= |ps|
  {
    hide Accepted;
    if ps != [] {
      FewerAccepted(ps[..|ps| - 1]);
    }
  }

  lemma {:induction false} FewerPayloads(sources: seq<Source>, customs: Customs)
    ensures |Payloads(sources, customs)| <= |sources|
  {
    hide Build;
    if sources != [] {
      FewerPayloads(sources[..|sources| - 1], customs);
    }
  }

  lemma FewerWriteables(sources: seq<Source>, customs: Customs)
    ensures |AcceptedOnly(Payloads(sources, customs))| <= |sources|
  {
    FewerAccepted(Payloads(sources, customs));
    FewerPayloads(sources, customs);
  }

  datatype PassResult = PassResult(outcomes: seq<Outcome>, validated: bool)

  /**
   One pass. At every recorded state each target holds its pre-run bytes or a complete
   payload the parser and validator accepted; refused systems and dry runs change no target.
   */
  method Run(disk: Disk, sources: seq<Source>, customs: Customs, dryRun: bool, pid: string, weather: nat -> Weather,
             stuck: set<Path>)
    returns (r: PassResult)
    requires disk.Valid() && NL !in pid && NamesOk(weather, |sources|)
    modifies disk
    ensures disk.Valid() && old(disk.history) <= disk.history
    ensures PublishedSince(old(disk.files), disk.history, |old(disk.history)|, AcceptedOnly(Payloads(sources, customs)))
    ensures dryRun ==> disk.files == old(disk.files) && disk.history == old(disk.history)
    ensures r.validated <==> RejectedKeys(Payloads(sources, customs)) == []
    ensures Reported(disk.files, sources, customs, dryRun, r.outcomes)
    ensures WrittenExactly(old(disk.files), sources, customs, dryRun, pid, weather, r.outcomes)
    ensures !dryRun ==> NoResidue(disk.files, Payloads(sources, customs), PositiveInt(pid), stuck)
  {
    hide Published, Delivered, IsTempName, Payloads, RefusedKeys, AcceptedOnly, RejectedKeys, DistinctDirs, Swept;
    hide OutcomesExact, SweptExactly, NoResidue;
    FewerWriteables(sources, customs);
    var payloads, unbuilt := BuildPhase(sources, customs);
    var writeables, rejected, validated := ValidatePhase(payloads);
    var written: seq<Outcome>;
    if dryRun {
      written := seq(|writeables|, k requires 0 <= k < |writeables| => Generated(writeables[k].key));
    } else {
      written := WritePhase(disk, writeables, pid, weather);
      ghost var before, n := disk.files, |disk.history|;
      if |payloads| > 0 {
        var dirs := DirsOf(payloads);
        SweepStaleTemps(disk, dirs, PositiveInt(pid), stuck);
        NothingLeft(before, disk.files, payloads, dirs, PositiveInt(pid), stuck);
        SweepPublished(old(disk.files), before, disk.history, n, writeables, PositiveInt(pid));
        SweepDelivered(before, disk.files, writeables, written, PositiveInt(pid));
      } else {
        NoDirsNoResidue(disk.files, payloads, PositiveInt(pid), stuck);
      }
    }
    r := PassResult(unbuilt + rejected + written, validated);
    assert r.outcomes[|unbuilt + rejected|..] == written;
  }

  method DirsOf(payloads: seq<Payload>) returns (dirs: seq<string>)
    ensures Distinct(dirs) && forall d :: d in dirs <==> exists k :: 0 <= k < |payloads| && payloads[k].dir == d
  {
    dirs := [];
    for n := 0 to |payloads|
      invariant Distinct(dirs)
      invariant forall d :: d in dirs <==> exists k :: 0 <= k < n && payloads[k].dir == d
    {
      if payloads[n].dir !in dirs {
        dirs := dirs + [payloads[n].dir];
      }
    }
  }

  lemma SweepPublished(start: Files, a: Files, history: seq<Files>, n: nat, writeables: seq<Payload>, pid: nat)
    requires Published(start, a, writeables) && forall k :: n <= k < |history| ==> Swept(a, history[k], pid)
    ensures PublishedSince(start, history, n, writeables)
  {
    hide Published, Swept, OnlyTempsDiffer;
    forall k | n <= k < |history|
      ensures Published(start, history[k], writeables)
    {
      SweptKeepsFiles(a, history[k], pid);
      TempsArePublished(start, a, history[k], writeables);
    }
  }

  lemma SweepDelivered(a: Files, h: Files, writeables: seq<Payload>, outcomes: seq<Outcome>, pid: nat)
    requires Swept(a, h, pid)
    ensures Delivered(a, writeables, outcomes) ==> Delivered(h, writeables, outcomes)
  {
    hide IsTempName;
    TargetIsNoTemp();
    SweptKeepsFiles(a, h, pid);
    if Delivered(a, writeables, outcomes) {
      forall i | 0 <= i < |outcomes| && outcomes[i].Generated?
        ensures Holds(h, TargetOf(writeables[i].dir), writeables[i].bytes)
      {
        assert !IsTempName(TargetOf(writeables[i].dir).name);
      }
    }
  }

  // ---------------------------------------------------------------- which systems reach the write phase

  /** A built system with clean inputs passes validation exactly when its paths and shortnames are usable. */
  lemma CleanSystemAcceptedExactly(src: Source, customs: Customs)
    requires Build(src, customs).Built?
    requires CleanSource(src, customs)
    ensures Accepted(Build(src, customs).payload.bytes) <==>
      PathsOk(Select(src.games.value, Main)) && PathsOk(Select(src.games.value, Pending)) &&
      ShortnamesOk(src.sys, src.games.value, ViewsOf(customs, src.sys.key))
  {
    hide P.ParseFile, P.ValidFile, RoundTrip.CleanInputs, SystemLines, PathsOk, ShortnamesOk;
    var launch := LaunchCommand(src.sys).value;
    CleanSystemRoundTrips(src.sys, src.games.value, ViewsOf(customs, src.sys.key));
    ValidExactlyWhenDistinct(src.sys, launch, src.games.value, ViewsOf(customs, src.sys.key));
  }

  predicate CleanSource(src: Source, customs: Customs)
    requires Build(src, customs).Built?
  {
    RoundTrip.CleanInputs(src.sys, LaunchCommand(src.sys).value, src.games.value, ViewsOf(customs, src.sys.key))
  }

  /** What is rendered for a system that has a launch command. */
  ghost predicate Launchable(sys: System) { (sys.core != "" && sys.core != "-") || sys.emulator != "" }

  /** When a system is skipped, refused or built, and what is then built for which directory. */
  lemma BuildExactly(src: Source, customs: Customs)
    ensures Build(src, customs).Skipped? <==> src.exo || src.games == Some([])
    ensures Build(src, customs).Refused? <==>
      !src.exo && (src.games.None? || (src.games.value != [] && (!src.dirThere || !Launchable(src.sys))))
    ensures Build(src, customs).Built? ==>
      var p := Build(src, customs).payload;
      p.key == src.sys.key && p.dir == src.dir &&
      Some(p.bytes) == Rendered(src.sys, src.games.value, if src.sys.key in customs then customs[src.sys.key] else [])
  {
    hide SystemLines;
  }

  /** Every built system's payload is handed to validation. */
  lemma {:induction false} BuiltArePayloads(sources: seq<Source>, customs: Customs, k: nat)
    requires k < |sources| && Build(sources[k], customs).Built?
    ensures Build(sources[k], customs).payload in Payloads(sources, customs)
  {
    hide Build;
    if k < |sources| - 1 {
      BuiltArePayloads(sources[..|sources| - 1], customs, k);
    }
  }

  /** Every accepted payload is handed to the write phase. */
  lemma {:induction false} AcceptedAreWriteable(ps: seq<Payload>, k: nat)
    requires k < |ps| && Accepted(ps[k].bytes)
    ensures ps[k] in AcceptedOnly(ps)
  {
    hide Accepted;
    if k < |ps| - 1 {
      AcceptedAreWriteable(ps[..|ps| - 1], k);
    }
  }

  /** The keys reported as refused and as rejected are those of refused systems and of payloads not accepted. */
  lemma {:induction false} RefusedExactly(sources: seq<Source>, customs: Customs, key: string)
    ensures key in RefusedKeys(sources, customs) <==>
      exists k :: 0 <= k < |sources| && sources[k].sys.key == key && Build(sources[k], customs).Refused?
  {
    hide Build;
    if sources != [] {
      var rest := sources[..|sources| - 1];
      RefusedExactly(rest, customs, key);
      assert sources == rest + [sources[|sources| - 1]];
    }
  }

  lemma {:induction false} RejectedExactly(ps: seq<Payload>, key: string)
    ensures key in RejectedKeys(ps) <==> exists k :: 0 <= k < |ps| && ps[k].key == key && !Accepted(ps[k].bytes)
  {
    hide Accepted;
    if ps != [] {
      var rest := ps[..|ps| - 1];
      RejectedExactly(rest, key);
      assert ps == rest + [ps[|ps| - 1]];
    }
  }

  /** A system whose directory is there and whose bytes are accepted reaches the write phase. */
  lemma PassingIsWritten(sources: seq<Source>, customs: Customs, k: nat)
    requires k < |sources| && Passes(sources[k], customs)
    ensures Build(sources[k], customs).payload in AcceptedOnly(Payloads(sources, customs))
  {
    hide Build, Accepted, Payloads, AcceptedOnly;
    BuiltArePayloads(sources, customs, k);
    var ps := Payloads(sources, customs);
    var n :| 0 <= n < |ps| && ps[n] == Build(sources[k], customs).payload;
    AcceptedAreWriteable(ps, n);
  }

  /** Everything handed to the write phase was accepted and was built from a system that is not eXo-sourced. */
  lemma {:induction false} WriteablesAreAccepted(ps: seq<Payload>, i: nat)
    requires i < |AcceptedOnly(ps)|
    ensures AcceptedOnly(ps)[i] in ps && Accepted(AcceptedOnly(ps)[i].bytes)
  {
    hide Accepted;
    var rest := ps[..|ps| - 1];
    if i < |AcceptedOnly(rest)| {
      WriteablesAreAccepted(rest, i);
    }
  }

  lemma {:induction false} PayloadsAreBuilt(sources: seq<Source>, customs: Customs, i: nat) returns (k: nat)
    requires i < |Payloads(sources, customs)|
    ensures k < |sources| && !sources[k].exo && Build(sources[k], customs) == Built(Payloads(sources, customs)[i])
  {
    hide Rendered;
    var rest := sources[..|sources| - 1];
    if i < |Payloads(rest, customs)| {
      k := PayloadsAreBuilt(rest, customs, i);
    } else {
      k := |sources| - 1;
    }
  }

  /** A target no payload is written to keeps what it held before the pass. */
  lemma OtherTargetsUntouched(start: Files, h: Files, writeables: seq<Payload>, dir: string)
    requires Published(start, h, writeables) && forall i :: 0 <= i < |writeables| ==> writeables[i].dir != dir
    ensures Same(start, h, TargetOf(dir))
  {
    TargetIsNoTemp();
    assert !IsTempName(TargetOf(dir).name);
  }

  /** Systems have directories of their own. */
  ghost predicate DistinctSources(sources: seq<Source>) {
    forall j, k :: 0 <= j < k < |sources| ==> sources[j].dir != sources[k].dir
  }

  /** Built into bytes that the parser and the validator accept. */
  ghost predicate Passes(src: Source, customs: Customs) {
    Build(src, customs).Built? && Accepted(Build(src, customs).payload.bytes)
  }

  lemma WriteableFromPassing(sources: seq<Source>, customs: Customs, i: nat) returns (k: nat)
    requires i < |AcceptedOnly(Payloads(sources, customs))|
    ensures k < |sources| && Passes(sources[k], customs) &&
      AcceptedOnly(Payloads(sources, customs))[i].dir == sources[k].dir
  {
    hide Rendered, Accepted, AcceptedOnly, Payloads;
    var ps := Payloads(sources, customs);
    WriteablesAreAccepted(ps, i);
    var n :| 0 <= n < |ps| && ps[n] == AcceptedOnly(ps)[i];
    k := PayloadsAreBuilt(sources, customs, n);
  }

  /** A system that is skipped, refused or rejected keeps its target through every state of a pass. */
  lemma UnwrittenTargetUntouched(start: Files, h: Files, sources: seq<Source>, customs: Customs, k: nat)
    requires k < |sources| && DistinctSources(sources) && !Passes(sources[k], customs)
    requires Published(start, h, AcceptedOnly(Payloads(sources, customs)))
    ensures Same(start, h, TargetOf(sources[k].dir))
  {
    hide Published, Passes, AcceptedOnly, Payloads;
    var writeables := AcceptedOnly(Payloads(sources, customs));
    forall i | 0 <= i < |writeables|
      ensures writeables[i].dir != sources[k].dir
    {
      var j := WriteableFromPassing(sources, customs, i);
    }
    OtherTargetsUntouched(start, h, writeables, sources[k].dir);
  }

  // ---------------------------------------------------------------- from the store's rows and the options

  /** A visible game with the regular files of its media directory. */
  datatype RawGame = RawGame(meta: GameMeta, media: seq<string>, playable: bool)

  datatype RawSource = RawSource(sys: System, exo: bool, dir: string, games: Option<seq<RawGame>>, dirThere: bool)

  /** The entry of a game, with the artwork mediaAssets finds for it. */
  ghost predicate ReadGame(g: RawGame, e: Entry) {
    e.meta == g.meta && e.playable == g.playable &&
    IsMediaAssets(g.media, Stem(BaseName(g.meta.relPath)), e.assets)
  }

  ghost predicate ReadGames(gs: seq<RawGame>, es: seq<Entry>) {
    |es| == |gs| && forall k :: 0 <= k < |gs| ==> ReadGame(gs[k], es[k])
  }

  ghost predicate ReadSource(raw: RawSource, src: Source) {
    src.sys == raw.sys && src.exo == raw.exo && src.dir == raw.dir && src.dirThere == raw.dirThere &&
    (src.games.Some? <==> raw.games.Some?) && (raw.games.Some? ==> ReadGames(raw.games.value, src.games.value))
  }

  ghost predicate ReadSources(raws: seq<RawSource>, sources: seq<Source>) {
    |sources| == |raws| && forall k :: 0 <= k < |raws| ==> ReadSource(raws[k], sources[k])
  }

  method GamesOf(gs: seq<RawGame>) returns (es: seq<Entry>)
    ensures ReadGames(gs, es)
  {
    hide IsMediaAssets;
    es := [];
    for n := 0 to |gs|
      invariant ReadGames(gs[..n], es)
    {
      var assets := MediaAssets(gs[n].media, Stem(BaseName(gs[n].meta.relPath)));
      es := es + [Entry(gs[n].meta, assets, gs[n].playable)];
    }
    assert gs[..|gs|] == gs;
  }

  method SourcesOf(raws: seq<RawSource>) returns (sources: seq<Source>)
    ensures ReadSources(raws, sources)
  {
    hide ReadGames;
    sources := [];
    for n := 0 to |raws|
      invariant ReadSources(raws[..n], sources)
    {
      var raw := raws[n];
      var games: Option<seq<Entry>> := None;
      if raw.games.Some? {
        var es := GamesOf(raw.games.value);
        games := Some(es);
      }
      sources := sources + [Source(raw.sys, raw.exo, raw.dir, games, raw.dirThere)];
    }
    assert raws[..|raws|] == raws;
  }

  /** The custom views are the collections' projections, sorted by shortname. */
  ghost predicate Projects(colls: seq<C.CustomCollection>, customs: Customs) {
    (forall key :: key in customs <==> C.ViewsFor(colls, key) != []) &&
    forall key :: key in customs ==> C.IsSortedView(customs[key], C.ViewsFor(colls, key))
  }

  /** A pass from the store's rows, the media directories and the options' collections. */
  method Generate(disk: Disk, raws: seq<RawSource>, colls: seq<C.CustomCollection>, dryRun: bool, pid: string,
                  weather: nat -> Weather, stuck: set<Path>)
    returns (r: PassResult, ghost sources: seq<Source>, ghost customs: Customs)
    requires disk.Valid() && NL !in pid && NamesOk(weather, |raws|)
    modifies disk
    ensures disk.Valid() && old(disk.history) <= disk.history
    ensures ReadSources(raws, sources) && Projects(colls, customs)
    ensures PublishedSince(old(disk.files), disk.history, |old(disk.history)|, AcceptedOnly(Payloads(sources, customs)))
    ensures dryRun ==> disk.files == old(disk.files) && disk.history == old(disk.history)
    ensures r.validated <==> RejectedKeys(Payloads(sources, customs)) == []
    ensures Reported(disk.files, sources, customs, dryRun, r.outcomes)
    ensures WrittenExactly(old(disk.files), sources, customs, dryRun, pid, weather, r.outcomes)
    ensures !dryRun ==> NoResidue(disk.files, Payloads(sources, customs), PositiveInt(pid), stuck)
  {
    hide ReadSource, WrittenExactly, NoResidue, Reported, PublishedSince, Payloads, AcceptedOnly, RejectedKeys;
    hide C.IsSortedView, C.ViewsFor;
    var views := C.CustomViewsBySystem(colls);
    var read := SourcesOf(raws);
    r := Run(disk, read, views, dryRun, pid, weather, stuck);
    sources, customs := read, views;
  }

  /**
   The bytes generated for a system parse back to exactly its collections if and only if its
   unsanitised inputs are clean, whatever the media directories hold.
   */
  lemma GeneratedRoundTripsExactly(raw: RawSource, src: Source, customs: Customs)
    requires ReadSource(raw, src) && Build(src, customs).Built?
    ensures P.ParseFile(Build(src, customs).payload.bytes) ==
      P.Ok(RoundTrip.ParsedSystem(src.sys, LaunchCommand(src.sys).value, src.games.value,
                                  ViewsOf(customs, src.sys.key)))
      <==> CleanSource(src, customs)
  {
    hide P.ParseFile, RoundTrip.CleanInputs, RoundTrip.ParsedSystem, SystemLines;
    ReadGamesHaveDistinctStems(raw.games.value, src.games.value);
    RoundTripsExactlyWhenClean(src.sys, src.games.value, ViewsOf(customs, src.sys.key));
  }

  lemma ReadGamesHaveDistinctStems(gs: seq<RawGame>, es: seq<Entry>)
    requires ReadGames(gs, es)
    ensures AllDistinctStems(es)
  {
  }
}
