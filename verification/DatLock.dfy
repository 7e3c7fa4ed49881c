module DatLock {
  // The content-addressed DAT lock and its append-only ledger
  // (pkgs/arcade-webapp/internal/dats/dats.go) and the gate in front of igir
  // (internal/igir/runner.go).
  //
  // Hashing, DAT parsing, downloads and every store or filesystem outcome are inputs.

  import opened Options

  type Bytes = string
  type Key = string

  const SHA_LENGTH := 40

  /** fetchedAt is a logical time, 0 when it does not parse. */
  datatype Entry = Entry(commit: string, sha: string, roms: nat, fetchedAt: nat)

  /** One dat_versions row. */
  datatype Version = Version(key: Key, commit: string, sha: string, roms: nat, fetchedAt: nat)

  /** dat-lock.json. A missing file is an empty document. */
  datatype LockFile = Unreadable | Document(systems: map<Key, Entry>)

  /** How the outside world answers one system's fetch. */
  datatype Reply = Reply(body: Option<Bytes>, installed: bool, infoStored: bool, rowStored: bool, now: nat)

  /** The hash, and the DAT parser: a rom count, or None when the bytes are no DAT. */
  datatype Oracle = Oracle(hash: Bytes -> string, parse: Bytes -> Option<nat>)

  /** The lock in memory, the <system>.dat files and the ledger. */
  datatype Store = Store(lock: map<Key, Entry>, files: map<Key, Bytes>, ledger: seq<Version>)

  // ---------------------------------------------------------------- one fetch

  predicate LockedAt(s: Store, key: Key, commit: string) {
    key in s.lock && s.lock[key].commit == commit
  }

  predicate OnDisk(o: Oracle, s: Store, key: Key, sha: string) {
    key in s.files && o.hash(s.files[key]) == sha
  }

  /** What fetchSystemAt leaves behind, and whether it returned without error. */
  function FetchAt(o: Oracle, s: Store, key: Key, commit: string, r: Reply): (Store, bool) {
    if r.body.None? then (s, false)
    else
      var body := r.body.value;
      var sha := o.hash(body);
      if LockedAt(s, key, commit) && s.lock[key].sha != sha then (s, false)
      else if o.parse(body).None? then (s, false)
      else if LockedAt(s, key, commit) then
        var rewrite := !OnDisk(o, s, key, sha);
        if rewrite && !r.installed then (s, false)
        else (if rewrite then s.(files := s.files[key := body]) else s, r.infoStored)
      else if !r.installed then (s, false)
      else
        var roms := o.parse(body).value;
        var installed := s.(files := s.files[key := body]);
        if !r.infoStored || !r.rowStored then (installed, false)
        else (installed.(ledger := s.ledger + [Version(key, commit, sha, roms, r.now)],
                         lock := s.lock[key := Entry(commit, sha, roms, r.now)]), true)
  }

  // ---------------------------------------------------------------- lock against ledger

  ghost function Newest(ledger: seq<Version>, key: Key): (v: Option<Version>)
    ensures v.Some? ==> v.value in ledger && v.value.key == key
  {
    if ledger == [] then None
    else if ledger[|ledger| - 1].key == key then Some(ledger[|ledger| - 1])
    else Newest(ledger[..|ledger| - 1], key)
  }

  ghost predicate EntryAgrees(e: Entry, ledger: seq<Version>, key: Key) {
    var v := Newest(ledger, key);
    v.Some? && v.value.commit == e.commit && v.value.sha == e.sha && v.value.roms == e.roms
  }

  /** Every lock entry is its system's newest ledger row. */
  ghost predicate Agree(lock: map<Key, Entry>, ledger: seq<Version>) {
    forall key :: key in lock ==> EntryAgrees(lock[key], ledger, key)
  }

  lemma NewestAppended(ledger: seq<Version>, v: Version, key: Key)
    ensures Newest(ledger + [v], key) == if v.key == key then Some(v) else Newest(ledger, key)
  {
    assert (ledger + [v])[..|ledger|] == ledger;
  }

  /** Lock and ledger either both stay or both gain this generation. */
  ghost predicate StaysOrGains(s: Store, t: Store, key: Key, commit: string) {
    (t.lock == s.lock && t.ledger == s.ledger) ||
    (!LockedAt(s, key, commit) && |t.ledger| == |s.ledger| + 1 && t.ledger[..|s.ledger|] == s.ledger &&
     var v := t.ledger[|s.ledger|];
     v.key == key && v.commit == commit && t.lock == s.lock[key := Entry(commit, v.sha, v.roms, v.fetchedAt)])
  }

  lemma FetchStaysOrGains(o: Oracle, s: Store, key: Key, commit: string, r: Reply)
    ensures StaysOrGains(s, FetchAt(o, s, key, commit, r).0, key, commit)
  {
  }

  lemma GainKeepsAgreement(s: Store, t: Store, key: Key, commit: string)
    requires StaysOrGains(s, t, key, commit) && Agree(s.lock, s.ledger)
    ensures Agree(t.lock, t.ledger) && s.ledger <= t.ledger
  {
    hide Newest;
    if t.ledger != s.ledger {
      var v := t.ledger[|s.ledger|];
      assert t.ledger == s.ledger + [v];
      forall k | k in t.lock
        ensures EntryAgrees(t.lock[k], t.ledger, k)
      {
        NewestAppended(s.ledger, v, k);
        assert k != key ==> EntryAgrees(s.lock[k], s.ledger, k);
      }
    }
  }

  /** A fetch keeps the agreement, touches only its own system, and only ever appends to the ledger. */
  lemma FetchKeepsAgreement(o: Oracle, s: Store, key: Key, commit: string, r: Reply)
    requires Agree(s.lock, s.ledger)
    ensures var t := FetchAt(o, s, key, commit, r).0;
      Agree(t.lock, t.ledger) && s.ledger <= t.ledger && |t.ledger| <= |s.ledger| + 1 &&
      t.lock - {key} == s.lock - {key} && t.files - {key} == s.files - {key}
  {
    hide Agree, Newest;
    FetchStaysOrGains(o, s, key, commit, r);
    GainKeepsAgreement(s, FetchAt(o, s, key, commit, r).0, key, commit);
  }

  /** The same commit with other bytes is refused: file, entry and ledger stay as they are. */
  lemma OtherBytesRefused(o: Oracle, s: Store, key: Key, commit: string, r: Reply)
    requires LockedAt(s, key, commit) && r.body.Some? && o.hash(r.body.value) != s.lock[key].sha
    ensures FetchAt(o, s, key, commit, r) == (s, false)
  {
  }

  /** A ledger row is appended exactly by a completed fetch of a generation that is not locked yet. */
  lemma RowAppendedExactly(o: Oracle, s: Store, key: Key, commit: string, r: Reply)
    ensures var (t, ok) := FetchAt(o, s, key, commit, r);
      t.ledger != s.ledger <==> ok && !LockedAt(s, key, commit)
    ensures var (t, ok) := FetchAt(o, s, key, commit, r);
      ok ==> LockedAt(t, key, commit) && r.body.Some? && t.lock[key].sha == o.hash(r.body.value)
    ensures var (t, ok) := FetchAt(o, s, key, commit, r);
      !ok ==> t.lock == s.lock
  {
    var t := FetchAt(o, s, key, commit, r).0;
    if t.ledger != s.ledger {
      assert |t.ledger| == |s.ledger| + 1;
    }
  }

  /** A reply that gets a new generation through every step. */
  predicate Accepted(o: Oracle, r: Reply) {
    r.body.Some? && o.parse(r.body.value).Some? && r.installed && r.infoStored && r.rowStored
  }

  /** A reply that confirms the locked generation, on disk or installed again. */
  predicate Confirms(o: Oracle, s: Store, key: Key, r: Reply) {
    key in s.lock && r.body.Some? && o.parse(r.body.value).Some? && o.hash(r.body.value) == s.lock[key].sha &&
    (OnDisk(o, s, key, o.hash(r.body.value)) || r.installed) && r.infoStored
  }

  /** A reply whose bytes are written to the system's file, whatever the store then says. */
  predicate Installs(o: Oracle, s: Store, key: Key, commit: string, r: Reply) {
    r.body.Some? && o.parse(r.body.value).Some? && r.installed &&
    (LockedAt(s, key, commit) ==>
      o.hash(r.body.value) == s.lock[key].sha && !OnDisk(o, s, key, o.hash(r.body.value)))
  }

  /**
   One fetch from its inputs alone. A generation that is not locked is recorded, in the
   ledger and in the lock with the same four values, exactly when its reply is accepted; a
   locked one is only ever confirmed; and the file changes exactly when bytes are installed.
   */
  lemma FetchExactly(o: Oracle, s: Store, key: Key, commit: string, r: Reply)
    ensures var (t, ok) := FetchAt(o, s, key, commit, r);
      (ok <==> if LockedAt(s, key, commit) then Confirms(o, s, key, r) else Accepted(o, r)) &&
      t.files == (if Installs(o, s, key, commit, r) then s.files[key := r.body.value] else s.files)
    ensures var t := FetchAt(o, s, key, commit, r).0;
      if !LockedAt(s, key, commit) && Accepted(o, r) then
        var sha, roms := o.hash(r.body.value), o.parse(r.body.value).value;
        t.ledger == s.ledger + [Version(key, commit, sha, roms, r.now)] &&
        t.lock == s.lock[key := Entry(commit, sha, roms, r.now)]
      else t.ledger == s.ledger && t.lock == s.lock
  {
  }

  /** The file of a locked system is the one its entry attests. */
  predicate Attested(o: Oracle, s: Store, key: Key) {
    key in s.lock ==> OnDisk(o, s, key, s.lock[key].sha)
  }

  /** Other bytes than the attested ones were installed for a system locked at another commit. */
  predicate InstallsOther(o: Oracle, lock: map<Key, Entry>, key: Key, commit: string, r: Reply) {
    key in lock && lock[key].commit != commit && r.body.Some? && o.parse(r.body.value).Some? && r.installed &&
    o.hash(r.body.value) != lock[key].sha
  }

  /** Such bytes, when the store then refused the info or the ledger row. */
  predicate InstalledUnrecorded(o: Oracle, lock: map<Key, Entry>, key: Key, commit: string, r: Reply) {
    InstallsOther(o, lock, key, commit, r) && !(r.infoStored && r.rowStored)
  }

  /**
   A fetch leaves an attested file unattested by the lock in memory exactly when it installs
   other bytes it then fails to record, and unattested by the lock as it was before exactly
   when it installs other bytes at all.
   */
  lemma AttestationLostExactly(o: Oracle, s: Store, key: Key, commit: string, r: Reply)
    requires Attested(o, s, key)
    ensures Attested(o, FetchAt(o, s, key, commit, r).0, key) <==> !InstalledUnrecorded(o, s.lock, key, commit, r)
    ensures Attested(o, FetchAt(o, s, key, commit, r).0.(lock := s.lock), key) <==>
      !InstallsOther(o, s.lock, key, commit, r)
  {
  }

  /** Whatever was there before, a fetch that returns without error leaves the file its entry attests. */
  lemma FetchedIsAttested(o: Oracle, s: Store, key: Key, commit: string, r: Reply)
    requires FetchAt(o, s, key, commit, r).1
    ensures key in FetchAt(o, s, key, commit, r).0.lock && Attested(o, FetchAt(o, s, key, commit, r).0, key)
  {
  }

  // ---------------------------------------------------------------- a batch

  /** The state after the first n systems of a batch at one commit; unmapped systems are skipped. */
  function FetchMany(o: Oracle, s: Store, mapped: set<Key>, keys: seq<Key>, commit: string, replies: seq<Reply>,
                     n: nat): Store
    requires n <= |keys| == |replies|
  {
    if n == 0 then s
    else
      var before := FetchMany(o, s, mapped, keys, commit, replies, n - 1);
      if keys[n - 1] in mapped then FetchAt(o, before, keys[n - 1], commit, replies[n - 1]).0 else before
  }

  predicate FetchedAt(o: Oracle, s: Store, mapped: set<Key>, keys: seq<Key>, commit: string, replies: seq<Reply>,
                      n: nat)
    requires n < |keys| == |replies|
  {
    keys[n] in mapped && FetchAt(o, FetchMany(o, s, mapped, keys, commit, replies, n), keys[n], commit, replies[n]).1
  }

  /** The positions among the first n of systems without a mapping, and of those fetched without error. */
  ghost function Unmapped(mapped: set<Key>, keys: seq<Key>, n: nat): set<nat>
    requires n <= |keys|
  {
    set i: nat | i < n && keys[i] !in mapped
  }

  ghost function Fetched(o: Oracle, s: Store, mapped: set<Key>, keys: seq<Key>, commit: Option<string>,
                         replies: seq<Reply>, n: nat): set<nat>
    requires n <= |keys| == |replies|
  {
    set i: nat | i < n && commit.Some? && FetchedAt(o, s, mapped, keys, commit.value, replies, i)
  }

  lemma NothingCounted(o: Oracle, s: Store, mapped: set<Key>, keys: seq<Key>, commit: Option<string>,
                       replies: seq<Reply>)
    requires |keys| == |replies|
    ensures Unmapped(mapped, keys, 0) == {} && Fetched(o, s, mapped, keys, commit, replies, 0) == {}
  {
  }

  lemma OneMoreUnmapped(mapped: set<Key>, keys: seq<Key>, n: nat)
    requires n < |keys|
    ensures |Unmapped(mapped, keys, n + 1)| == |Unmapped(mapped, keys, n)| + if keys[n] in mapped then 0 else 1
  {
    assert Unmapped(mapped, keys, n + 1) == Unmapped(mapped, keys, n) + if keys[n] in mapped then {} else {n};
  }

  lemma OneMoreFetched(o: Oracle, s: Store, mapped: set<Key>, keys: seq<Key>, commit: Option<string>,
                       replies: seq<Reply>, n: nat)
    requires n < |keys| == |replies|
    ensures |Fetched(o, s, mapped, keys, commit, replies, n + 1)| ==
      |Fetched(o, s, mapped, keys, commit, replies, n)| +
      if commit.Some? && FetchedAt(o, s, mapped, keys, commit.value, replies, n) then 1 else 0
  {
    hide FetchedAt;
    assert Fetched(o, s, mapped, keys, commit, replies, n + 1) ==
      Fetched(o, s, mapped, keys, commit, replies, n) +
      if commit.Some? && FetchedAt(o, s, mapped, keys, commit.value, replies, n) then {n} else {};
  }

  lemma {:induction false} BatchKeepsAgreement(o: Oracle, s: Store, mapped: set<Key>, keys: seq<Key>, commit: string,
          replies: seq<Reply>, n: nat)
    requires n <= |keys| == |replies| && Agree(s.lock, s.ledger)
    ensures var t := FetchMany(o, s, mapped, keys, commit, replies, n); Agree(t.lock, t.ledger) && s.ledger <= t.ledger
  {
    hide FetchAt, Agree;
    if n > 0 {
      BatchKeepsAgreement(o, s, mapped, keys, commit, replies, n - 1);
      var before := FetchMany(o, s, mapped, keys, commit, replies, n - 1);
      FetchKeepsAgreement(o, before, keys[n - 1], commit, replies[n - 1]);
    }
  }

  /** Both stores have the same entry and the same file for the system. */
  predicate SameAt(a: Store, b: Store, key: Key) {
    (key in a.lock <==> key in b.lock) && (key in a.lock ==> a.lock[key] == b.lock[key]) &&
    (key in a.files <==> key in b.files) && (key in a.files ==> a.files[key] == b.files[key])
  }

  /** While a batch fetches other systems, a system keeps its entry and file; an unmapped one always does. */
  lemma {:induction false} OtherFetchesKeep(o: Oracle, s: Store, mapped: set<Key>, keys: seq<Key>, commit: string,
                                            replies: seq<Reply>, i: nat, n: nat, key: Key)
    requires i <= n <= |keys| == |replies| && forall j :: i <= j < n ==> keys[j] != key || key !in mapped
    ensures SameAt(FetchMany(o, s, mapped, keys, commit, replies, i),
                   FetchMany(o, s, mapped, keys, commit, replies, n), key)
    decreases n
  {
    if n > i {
      OtherFetchesKeep(o, s, mapped, keys, commit, replies, i, n - 1, key);
    }
  }

  // ---------------------------------------------------------------- the gate

  datatype Verdict = LockError | Proceed | FileError | Mismatch

  /** CheckLock. */
  function CheckLock(o: Oracle, lock: LockFile, files: map<Key, Bytes>, key: Key): Verdict {
    match lock
    case Unreadable => LockError
    case Document(systems) =>
      if key !in systems then Proceed
      else if key !in files then FileError
      else if o.hash(files[key]) != systems[key].sha then Mismatch
      else Proceed
  }

  /**
   What the steps of processSystem around the gate find: an .aria2 control file on the second
   look, and whether the output directory, the report directory and the plain copy succeed.
   */
  datatype Staging = Staging(downloading: bool, outputMade: bool, reportDirMade: bool, copied: bool)

  datatype Processed = SkippedDownloading | PromotedUnchecked | DatLockRefused | ProcessFailed | RanIgir

  /** processSystem up to the start of igir, for a system that had incoming files and no download on the first look. */
  function ProcessSystem(o: Oracle, lock: LockFile, files: map<Key, Bytes>, key: Key, staging: Staging): Processed {
    if key !in files then
      if staging.downloading then SkippedDownloading
      else if !staging.outputMade || !staging.copied then ProcessFailed
      else PromotedUnchecked
    else match CheckLock(o, lock, files, key)
      case Mismatch => DatLockRefused
      case Proceed =>
        if !staging.outputMade || !staging.reportDirMade then ProcessFailed
        else if staging.downloading then SkippedDownloading
        else RanIgir
      case _ => ProcessFailed
  }

  /**
   igir runs only on a DAT that matches its entry or has none in a readable lock, and the
   gate refuses only a DAT whose entry says otherwise; nothing staged changes either.
   */
  lemma IgirRunsExactly(o: Oracle, lock: LockFile, files: map<Key, Bytes>, key: Key, staging: Staging)
    ensures ProcessSystem(o, lock, files, key, staging) == RanIgir <==>
      key in files && lock.Document? && (key in lock.systems ==> o.hash(files[key]) == lock.systems[key].sha) &&
      staging.outputMade && staging.reportDirMade && !staging.downloading
    ensures ProcessSystem(o, lock, files, key, staging) == DatLockRefused <==>
      key in files && lock.Document? && key in lock.systems && o.hash(files[key]) != lock.systems[key].sha
    ensures ProcessSystem(o, lock, files, key, staging) == PromotedUnchecked <==>
      key !in files && !staging.downloading && staging.outputMade && staging.copied
  {
  }

  // ---------------------------------------------------------------- a refresh on disk

  /** What a refresh finds and leaves: the lock file, the DAT files and the ledger. */
  datatype Disk = Disk(lockFile: LockFile, files: map<Key, Bytes>, ledger: seq<Version>)

  /** The lock a refresh or a later reader starts from; an unreadable file counts as an empty one. */
  function InMemory(lockFile: LockFile): map<Key, Entry> {
    if lockFile.Document? then lockFile.systems else map[]
  }

  function Opened(d: Disk): Store {
    Store(InMemory(d.lockFile), d.files, d.ledger)
  }

  /** What Refresh leaves: the batch at one commit, if there is one, then one attempt to write the lock. */
  function RefreshAt(o: Oracle, d: Disk, mapped: set<Key>, keys: seq<Key>, commit: Option<string>,
                     replies: seq<Reply>, lockWritten: bool): Disk
    requires |keys| == |replies|
  {
    var end := if commit.Some? then FetchMany(o, Opened(d), mapped, keys, commit.value, replies, |keys|) else Opened(d);
    Disk(if lockWritten then Document(end.lock) else d.lockFile, end.files, end.ledger)
  }

  /**
   What RefreshSystem leaves, and whether it returned without error; after a failed fetch
   the lock file is not written.
   */
  function RefreshOneAt(o: Oracle, d: Disk, mapped: set<Key>, key: Key, commit: Option<string>, r: Reply,
                        lockWritten: bool): (Disk, bool) {
    if key !in mapped || commit.None? then (d, false)
    else
      var (end, ok) := FetchAt(o, Opened(d), key, commit.value, r);
      (Disk(if ok && lockWritten then Document(end.lock) else d.lockFile, end.files, end.ledger), ok)
  }

  // ---------------------------------------------------------------- the fetcher

  /** The lock document a batch updates in memory. */
  class Lock {
    var systems: map<Key, Entry>

    constructor (systems: map<Key, Entry>)
      ensures this.systems == systems
    {
      this.systems := systems;
    }
  }

  datatype Summary = Summary(systems: nat, fetched: nat, unmapped: nat, warnings: nat)

  class Fetcher {
    const oracle: Oracle
    const mapped: set<Key>
    var running: bool
    var lockFile: LockFile
    var files: map<Key, Bytes>
    var ledger: seq<Version>

    constructor (oracle: Oracle, mapped: set<Key>, lockFile: LockFile, files: map<Key, Bytes>, ledger: seq<Version>)
      ensures this.oracle == oracle && this.mapped == mapped && !running
      ensures this.lockFile == lockFile && this.files == files && this.ledger == ledger
    {
      this.oracle, this.mapped, running := oracle, mapped, false;
      this.lockFile, this.files, this.ledger := lockFile, files, ledger;
    }

    ghost function View(lock: Lock): Store
      reads this, lock
    {
      Store(lock.systems, files, ledger)
    }

    ghost function State(): Disk
      reads this
    {
      Disk(lockFile, files, ledger)
    }

    method ReadLock() returns (lock: Option<Lock>)
      ensures lock.None? <==> lockFile.Unreadable?
      ensures lock.Some? ==> fresh(lock.value) && lock.value.systems == lockFile.systems
    {
      if lockFile.Unreadable? {
        return None;
      }
      var l := new Lock(lockFile.systems);
      return Some(l);
    }

    method WriteLock(lock: Lock, ok: bool)
      modifies this`lockFile
      ensures lockFile == if ok then Document(lock.systems) else old(lockFile)
    {
      if ok {
        lockFile := Document(lock.systems);
      }
    }

    /** fetchSystemAt; a new generation is written to disk, then info, then ledger, then the lock. */
    method FetchSystemAt(key: Key, commit: string, r: Reply, lock: Lock) returns (ok: bool)
      modifies this`files, this`ledger, lock
      ensures (View(lock), ok) == FetchAt(oracle, old(View(lock)), key, commit, r)
    {
      if r.body.None? {
        return false;
      }
      var body := r.body.value;
      var sha := oracle.hash(body);
      var locked := key in lock.systems && lock.systems[key].commit == commit;
      if locked && lock.systems[key].sha != sha {
        return false;
      }
      var roms := oracle.parse(body);
      if roms.None? {
        return false;
      }
      if locked {
        if key !in files || oracle.hash(files[key]) != sha {
          if !r.installed {
            return false;
          }
          files := files[key := body];
        }
        return r.infoStored;
      }
      if !r.installed {
        return false;
      }
      files := files[key := body];
      if !r.infoStored {
        return false;
      }
      if !r.rowStored {
        return false;
      }
      ledger := ledger + [Version(key, commit, sha, roms.value, r.now)];
      lock.systems := lock.systems[key := Entry(commit, sha, roms.value, r.now)];
      return true;
    }

    /** The commit of a batch: the resolved one, else the newest pin of the lock. */
    method BatchCommit(resolved: Option<string>, lock: Lock) returns (commit: Option<string>)
      ensures resolved.Some? ==> commit == resolved
      ensures resolved.None? ==> IsPin(lock.systems, commit)
    {
      if resolved.Some? {
        return resolved;
      }
      commit := PinnedCommit(lock.systems);
    }

    /** Refresh, whose batch is fetched at one commit and ends with one attempt to write the lock. */
    method Refresh(keys: seq<Key>, resolved: Option<string>, replies: seq<Reply>, lockWritten: bool)
      returns (commit: Option<string>, res: Summary)
      requires |keys| == |replies|
      modifies this
      ensures running == old(running)
      ensures old(running) ==> State() == old(State()) && res == Summary(0, 0, 0, 1)
      ensures !old(running) ==>
        State() == RefreshAt(oracle, old(State()), mapped, keys, commit, replies, lockWritten) &&
        (if resolved.Some? then commit == resolved else IsPin(InMemory(old(lockFile)), commit)) &&
        res.systems == |keys| && res.unmapped == |Unmapped(mapped, keys, |keys|)| &&
        res.fetched == |Fetched(oracle, Opened(old(State())), mapped, keys, commit, replies, |keys|)| &&
        res.fetched + res.unmapped + res.warnings == |keys| + if lockWritten then 0 else 1
    {
      hide FetchAt, IsPin, Unmapped, Fetched;
      if running {
        return None, Summary(0, 0, 0, 1);
      }
      running := true;
      var read := ReadLock();
      var lock: Lock;
      if read.Some? {
        lock := read.value;
      } else {
        lock := new Lock(map[]);
      }
      commit := BatchCommit(resolved, lock);
      ghost var start := View(lock);
      res := Summary(0, 0, 0, 0);
      NothingCounted(oracle, start, mapped, keys, commit, replies);
      for n := 0 to |keys|
        invariant running && lockFile == old(lockFile) && fresh(lock)
        invariant View(lock) == if commit.Some? then FetchMany(oracle, start, mapped, keys, commit.value, replies, n)
          else start
        invariant res.systems == n == res.fetched + res.unmapped + res.warnings
        invariant res.unmapped == |Unmapped(mapped, keys, n)|
        invariant res.fetched == |Fetched(oracle, start, mapped, keys, commit, replies, n)|
      {
        OneMoreUnmapped(mapped, keys, n);
        OneMoreFetched(oracle, start, mapped, keys, commit, replies, n);
        res := res.(systems := res.systems + 1);
        if keys[n] !in mapped {
          res := res.(unmapped := res.unmapped + 1);
          continue;
        }
        if commit.None? {
          res := res.(warnings := res.warnings + 1);
          continue;
        }
        var ok := FetchSystemAt(keys[n], commit.value, replies[n], lock);
        if ok {
          res := res.(fetched := res.fetched + 1);
        } else {
          res := res.(warnings := res.warnings + 1);
        }
      }
      WriteLock(lock, lockWritten);
      if !lockWritten {
        res := res.(warnings := res.warnings + 1);
      }
      running := false;
    }

    /** RefreshSystem: a failed fetch leaves the lock file unwritten. */
    method RefreshSystem(key: Key, resolved: Option<string>, r: Reply, lockWritten: bool)
      returns (ok: bool, commit: Option<string>)
      modifies this
      ensures running == old(running)
      ensures old(running) ==> !ok && State() == old(State())
      ensures !old(running) ==> (State(), ok) == RefreshOneAt(oracle, old(State()), mapped, key, commit, r, lockWritten)
      ensures !old(running) && key in mapped ==>
        if resolved.Some? then commit == resolved else IsPin(InMemory(old(lockFile)), commit)
    {
      commit := None;
      if key !in mapped || running {
        return false, None;
      }
      running := true;
      var read := ReadLock();
      var lock: Lock;
      if read.Some? {
        lock := read.value;
      } else {
        lock := new Lock(map[]);
      }
      commit := BatchCommit(resolved, lock);
      ok := false;
      if commit.Some? {
        ok := FetchSystemAt(key, commit.value, r, lock);
      }
      if ok {
        WriteLock(lock, lockWritten);
      }
      running := false;
    }
  }

  predicate Usable(e: Entry) { |e.commit| == SHA_LENGTH }

  /** The commit of a usable entry fetched no earlier than any other, or None when there is no usable entry. */
  ghost predicate IsPin(lock: map<Key, Entry>, commit: Option<string>) {
    match commit
    case None => forall k :: k in lock ==> !Usable(lock[k])
    case Some(c) => exists k ::
      k in lock && Usable(lock[k]) && lock[k].commit == c && NewestUsable(lock, lock[k].fetchedAt)
  }

  ghost predicate NewestUsable(lock: map<Key, Entry>, at: nat) {
    forall k :: k in lock && Usable(lock[k]) ==> lock[k].fetchedAt <= at
  }

  method PinnedCommit(lock: map<Key, Entry>) returns (commit: Option<string>)
    ensures IsPin(lock, commit)
  {
    commit := None;
    var bestAt := 0;
    var todo := lock.Keys;
    while todo != {}
      invariant todo <= lock.Keys
      invariant commit.None? ==> forall k :: k in lock && k !in todo ==> !Usable(lock[k])
      invariant commit.Some? ==> exists k ::
        k in lock && Usable(lock[k]) && lock[k].commit == commit.value && lock[k].fetchedAt == bestAt
      invariant commit.Some? ==> forall k :: k in lock && k !in todo && Usable(lock[k]) ==> lock[k].fetchedAt <= bestAt
      decreases |todo|
    {
      var k :| k in todo;
      todo := todo - {k};
      var e := lock[k];
      if |e.commit| != SHA_LENGTH {
        continue;
      }
      if commit.None? || e.fetchedAt > bestAt {
        commit, bestAt := Some(e.commit), e.fetchedAt;
      }
    }
  }

  // ---------------------------------------------------------------- after a refresh

  /** The reply moves a system of this lock from another commit to the batch's. */
  predicate MovesLocked(o: Oracle, lock: map<Key, Entry>, mapped: set<Key>, key: Key, commit: Option<string>,
                        r: Reply) {
    key in mapped && key in lock && commit.Some? && lock[key].commit != commit.value && Accepted(o, r)
  }

  ghost predicate SomeMoves(o: Oracle, lock: map<Key, Entry>, mapped: set<Key>, keys: seq<Key>,
                            commit: Option<string>, replies: seq<Reply>, n: nat, key: Key)
    requires n <= |keys| == |replies|
  {
    exists i :: 0 <= i < n && keys[i] == key && MovesLocked(o, lock, mapped, keys[i], commit, replies[i])
  }

  /** A locked system's entry and newest row: as they were, or both of the batch's commit. */
  ghost predicate KeptOrMoved(s: Store, t: Store, key: Key, commit: string, moved: bool)
    requires key in s.lock
  {
    key in t.lock &&
    if moved then
      s.lock[key].commit != commit == t.lock[key].commit && Newest(t.ledger, key).Some? &&
      Newest(t.ledger, key).value.commit == commit
    else
      t.lock[key] == s.lock[key] && Newest(t.ledger, key) == Newest(s.ledger, key)
  }

  /** A fetch leaves another system as it was, and moves its own exactly when the reply is accepted at a new commit. */
  lemma FetchMoves(o: Oracle, s: Store, fetched: Key, commit: string, r: Reply, key: Key)
    requires key in s.lock
    ensures KeptOrMoved(s, FetchAt(o, s, fetched, commit, r).0, key, commit,
                        fetched == key && s.lock[key].commit != commit && Accepted(o, r))
  {
    hide Newest;
    var t := FetchAt(o, s, fetched, commit, r).0;
    if t.ledger != s.ledger {
      assert t.ledger == s.ledger + [t.ledger[|s.ledger|]];
      NewestAppended(s.ledger, t.ledger[|s.ledger|], key);
    }
  }

  lemma {:induction false} LockedThroughBatch(o: Oracle, s: Store, mapped: set<Key>, keys: seq<Key>, commit: string,
          replies: seq<Reply>, n: nat, key: Key)
    requires n <= |keys| == |replies| && key in s.lock
    ensures KeptOrMoved(s, FetchMany(o, s, mapped, keys, commit, replies, n), key, commit,
                        SomeMoves(o, s.lock, mapped, keys, Some(commit), replies, n, key))
  {
    hide FetchAt, Newest;
    if n > 0 {
      LockedThroughBatch(o, s, mapped, keys, commit, replies, n - 1, key);
      if keys[n - 1] in mapped {
        FetchMoves(o, FetchMany(o, s, mapped, keys, commit, replies, n - 1), keys[n - 1], commit, replies[n - 1], key);
      }
    }
  }

  /** An old entry agrees with the ledger afterwards exactly when its system did not move. */
  lemma EntryLeftBehindExactly(s: Store, t: Store, key: Key, commit: string, moved: bool)
    requires key in s.lock && EntryAgrees(s.lock[key], s.ledger, key) && KeptOrMoved(s, t, key, commit, moved)
    ensures EntryAgrees(s.lock[key], t.ledger, key) <==> !moved
  {
    hide Newest;
  }

  lemma OldLockAgreesExactly(o: Oracle, s: Store, mapped: set<Key>, keys: seq<Key>, commit: string, replies: seq<Reply>)
    requires |keys| == |replies| && Agree(s.lock, s.ledger)
    ensures Agree(s.lock, FetchMany(o, s, mapped, keys, commit, replies, |keys|).ledger) <==>
      forall i :: 0 <= i < |keys| ==> !MovesLocked(o, s.lock, mapped, keys[i], Some(commit), replies[i])
  {
    hide FetchMany, EntryAgrees, MovesLocked;
    var t := FetchMany(o, s, mapped, keys, commit, replies, |keys|);
    forall key | key in s.lock
      ensures EntryAgrees(s.lock[key], t.ledger, key) <==>
        !SomeMoves(o, s.lock, mapped, keys, Some(commit), replies, |keys|, key)
    {
      LockedThroughBatch(o, s, mapped, keys, commit, replies, |keys|, key);
      EntryLeftBehindExactly(s, t, key, commit, SomeMoves(o, s.lock, mapped, keys, Some(commit), replies, |keys|, key));
    }
    forall i | 0 <= i < |keys| && MovesLocked(o, s.lock, mapped, keys[i], Some(commit), replies[i])
      ensures keys[i] in s.lock && SomeMoves(o, s.lock, mapped, keys, Some(commit), replies, |keys|, keys[i])
    {
      MovesOnlyLocked(o, s.lock, mapped, keys[i], Some(commit), replies[i]);
    }
  }

  lemma MovesOnlyLocked(o: Oracle, lock: map<Key, Entry>, mapped: set<Key>, key: Key, commit: Option<string>, r: Reply)
    requires MovesLocked(o, lock, mapped, key, commit, r)
    ensures key in lock
  {
  }

  /**
   From a lock that agrees with the ledger, the lock file agrees after a refresh exactly when
   it was written or no reply was accepted for a system it holds at another commit.
   */
  lemma RefreshedLockAgreesExactly(o: Oracle, d: Disk, mapped: set<Key>, keys: seq<Key>, commit: Option<string>,
                                   replies: seq<Reply>, lockWritten: bool)
    requires |keys| == |replies| && Agree(InMemory(d.lockFile), d.ledger)
    ensures var t := RefreshAt(o, d, mapped, keys, commit, replies, lockWritten);
      Agree(InMemory(t.lockFile), t.ledger) <==>
      lockWritten || forall i :: 0 <= i < |keys| ==>
        !MovesLocked(o, InMemory(d.lockFile), mapped, keys[i], commit, replies[i])
  {
    hide FetchMany, Agree;
    if commit.Some? {
      BatchKeepsAgreement(o, Opened(d), mapped, keys, commit.value, replies, |keys|);
      OldLockAgreesExactly(o, Opened(d), mapped, keys, commit.value, replies);
    }
  }

  /** The same for a refresh of one system. */
  lemma RefreshedOneAgreesExactly(o: Oracle, d: Disk, mapped: set<Key>, key: Key, commit: Option<string>, r: Reply,
                                  lockWritten: bool)
    requires Agree(InMemory(d.lockFile), d.ledger)
    ensures var t := RefreshOneAt(o, d, mapped, key, commit, r, lockWritten).0;
      Agree(InMemory(t.lockFile), t.ledger) <==>
        lockWritten || !MovesLocked(o, InMemory(d.lockFile), mapped, key, commit, r)
  {
  }

  // ---------------------------------------------------------------- the gate after a refresh

  /** Other bytes were installed, but the info row, the ledger row or the lock file was not written. */
  predicate LosesGate(o: Oracle, lock: map<Key, Entry>, mapped: set<Key>, key: Key, commit: Option<string>, r: Reply,
                      lockWritten: bool) {
    key in mapped && commit.Some? && InstallsOther(o, lock, key, commit.value, r) &&
    !(lockWritten && r.infoStored && r.rowStored)
  }

  /** A fetch depends on a store only through its own system's entry and file. */
  lemma FetchIsLocal(o: Oracle, a: Store, b: Store, key: Key, commit: string, r: Reply)
    requires SameAt(a, b, key)
    ensures SameAt(FetchAt(o, a, key, commit, r).0, FetchAt(o, b, key, commit, r).0, key)
  {
  }

  lemma FetchKeepsFile(o: Oracle, s: Store, key: Key, commit: string, r: Reply)
    ensures key in s.files ==> key in FetchAt(o, s, key, commit, r).0.files
  {
  }

  /** A batch does to a system listed once what that one fetch would do alone. */
  lemma BatchIsItsOwnFetch(o: Oracle, s: Store, mapped: set<Key>, keys: seq<Key>, commit: string, replies: seq<Reply>,
                           i: nat)
    requires i < |keys| == |replies| && keys[i] in mapped
    requires forall j :: 0 <= j < |keys| && j != i ==> keys[j] != keys[i]
    ensures SameAt(FetchAt(o, s, keys[i], commit, replies[i]).0,
                   FetchMany(o, s, mapped, keys, commit, replies, |keys|), keys[i])
  {
    hide FetchAt;
    OtherFetchesKeep(o, s, mapped, keys, commit, replies, 0, i, keys[i]);
    FetchIsLocal(o, s, FetchMany(o, s, mapped, keys, commit, replies, i), keys[i], commit, replies[i]);
    OtherFetchesKeep(o, s, mapped, keys, commit, replies, i + 1, |keys|, keys[i]);
  }

  predicate Distinct(keys: seq<Key>) {
    forall i, j :: 0 <= i < j < |keys| ==> keys[i] != keys[j]
  }

  /**
   After a refresh that found a system attested the gate refuses it exactly when its reply
   installed other bytes for an entry of another commit, and the info row, the ledger row or
   the lock file was not written.
   */
  lemma GateAfterRefresh(o: Oracle, d: Disk, mapped: set<Key>, keys: seq<Key>, commit: Option<string>,
                         replies: seq<Reply>, lockWritten: bool, key: Key, staging: Staging)
    requires |keys| == |replies| && Distinct(keys) && d.lockFile.Document? && Attested(o, Opened(d), key)
    ensures var t := RefreshAt(o, d, mapped, keys, commit, replies, lockWritten);
      ProcessSystem(o, t.lockFile, t.files, key, staging) == DatLockRefused <==>
      exists i :: 0 <= i < |keys| && keys[i] == key &&
        LosesGate(o, d.lockFile.systems, mapped, keys[i], commit, replies[i], lockWritten)
  {
    hide FetchAt;
    if commit.Some? {
      var s := Opened(d);
      if i :| 0 <= i < |keys| && keys[i] == key && key in mapped {
        BatchIsItsOwnFetch(o, s, mapped, keys, commit.value, replies, i);
        FetchKeepsFile(o, s, key, commit.value, replies[i]);
        AttestationLostExactly(o, s, key, commit.value, replies[i]);
      } else {
        OtherFetchesKeep(o, s, mapped, keys, commit.value, replies, 0, |keys|, key);
      }
    }
  }

  /** The same for a refresh of one system. */
  lemma GateAfterRefreshOne(o: Oracle, d: Disk, mapped: set<Key>, key: Key, commit: Option<string>, r: Reply,
                            lockWritten: bool, staging: Staging)
    requires d.lockFile.Document? && Attested(o, Opened(d), key)
    ensures var t := RefreshOneAt(o, d, mapped, key, commit, r, lockWritten).0;
      ProcessSystem(o, t.lockFile, t.files, key, staging) == DatLockRefused <==>
      LosesGate(o, d.lockFile.systems, mapped, key, commit, r, lockWritten)
  {
  }

  /** A system whose last fetch of a batch returned without error passes the gate once the lock is written. */
  lemma FetchedSystemPassesGate(o: Oracle, d: Disk, mapped: set<Key>, keys: seq<Key>, commit: string,
                                replies: seq<Reply>, i: nat, staging: Staging)
    requires |keys| == |replies| && i < |keys| && FetchedAt(o, Opened(d), mapped, keys, commit, replies, i)
    requires forall j :: i < j < |keys| ==> keys[j] != keys[i]
    ensures var t := RefreshAt(o, d, mapped, keys, Some(commit), replies, true);
      ProcessSystem(o, t.lockFile, t.files, keys[i], staging) == RanIgir <==>
      staging.outputMade && staging.reportDirMade && !staging.downloading
  {
    hide FetchAt;
    FetchedIsAttested(o, FetchMany(o, Opened(d), mapped, keys, commit, replies, i), keys[i], commit, replies[i]);
    OtherFetchesKeep(o, Opened(d), mapped, keys, commit, replies, i + 1, |keys|, keys[i]);
  }

  /**
   A refresh of one system from its inputs: it succeeds exactly for a mapped system with a
   commit whose reply confirms the locked generation or is accepted as a new one, and only
   then is the lock file written; without a mapping or a commit nothing changes.
   */
  lemma RefreshOneExactly(o: Oracle, d: Disk, mapped: set<Key>, key: Key, commit: Option<string>, r: Reply,
                          lockWritten: bool)
    ensures key !in mapped || commit.None? ==> RefreshOneAt(o, d, mapped, key, commit, r, lockWritten) == (d, false)
    ensures key in mapped && commit.Some? ==>
      var (t, ok) := RefreshOneAt(o, d, mapped, key, commit, r, lockWritten);
      var s, locked := Opened(d), LockedAt(Opened(d), key, commit.value);
      (ok <==> if locked then Confirms(o, s, key, r) else Accepted(o, r)) &&
      t.files == (if Installs(o, s, key, commit.value, r) then d.files[key := r.body.value] else d.files) &&
      (!ok || !lockWritten ==> t.lockFile == d.lockFile) && (ok && lockWritten ==> t.lockFile.Document?) &&
      if ok && !locked then
        var sha, roms := o.hash(r.body.value), o.parse(r.body.value).value;
        t.ledger == d.ledger + [Version(key, commit.value, sha, roms, r.now)] &&
        (lockWritten ==>
          t.lockFile.systems == InMemory(d.lockFile)[key := Entry(commit.value, sha, roms, r.now)])
      else t.ledger == d.ledger && (ok && lockWritten ==> t.lockFile.systems == InMemory(d.lockFile))
  {
    hide FetchAt, Confirms, Accepted, Installs;
    if commit.Some? {
      FetchExactly(o, Opened(d), key, commit.value, r);
    }
  }

  // ---------------------------------------------------------------- the first refresh of a system

  lemma {:induction false} OtherFetchesKeepNewest(o: Oracle, s: Store, mapped: set<Key>, keys: seq<Key>, commit: string,
                                                  replies: seq<Reply>, i: nat, n: nat, key: Key)
    requires i <= n <= |keys| == |replies| && forall j :: i <= j < n ==> keys[j] != key || key !in mapped
    ensures Newest(FetchMany(o, s, mapped, keys, commit, replies, n).ledger, key) ==
      Newest(FetchMany(o, s, mapped, keys, commit, replies, i).ledger, key)
    decreases n
  {
    hide FetchAt, Newest;
    if n > i {
      OtherFetchesKeepNewest(o, s, mapped, keys, commit, replies, i, n - 1, key);
      var before := FetchMany(o, s, mapped, keys, commit, replies, n - 1);
      if keys[n - 1] in mapped {
        FetchKeepsNewest(o, before, keys[n - 1], commit, replies[n - 1], key);
      }
    }
  }

  lemma FetchKeepsNewest(o: Oracle, s: Store, fetched: Key, commit: string, r: Reply, key: Key)
    requires fetched != key
    ensures Newest(FetchAt(o, s, fetched, commit, r).0.ledger, key) == Newest(s.ledger, key)
  {
    hide FetchAt, Newest;
    FetchExactly(o, s, fetched, commit, r);
    if !LockedAt(s, fetched, commit) && Accepted(o, r) {
      var v := Version(fetched, commit, o.hash(r.body.value), o.parse(r.body.value).value, r.now);
      NewestAppended(s.ledger, v, key);
    }
  }

  /**
   A refresh of a system the lock file does not hold: exactly when its reply is accepted the
   system gets its file, its ledger row and, if the lock is written, its entry, all of the
   bytes and the commit of this refresh.
   */
  lemma FirstRefreshExactly(o: Oracle, d: Disk, mapped: set<Key>, keys: seq<Key>, commit: string, replies: seq<Reply>,
                            lockWritten: bool, i: nat)
    requires |keys| == |replies| && i < |keys| && Distinct(keys) && keys[i] in mapped
    requires keys[i] !in InMemory(d.lockFile)
    ensures var t := RefreshAt(o, d, mapped, keys, Some(commit), replies, lockWritten);
      var key, r := keys[i], replies[i];
      if Accepted(o, r) then
        var sha, roms := o.hash(r.body.value), o.parse(r.body.value).value;
        key in t.files && t.files[key] == r.body.value &&
        Newest(t.ledger, key) == Some(Version(key, commit, sha, roms, r.now)) &&
        (lockWritten ==>
          key in InMemory(t.lockFile) && InMemory(t.lockFile)[key] == Entry(commit, sha, roms, r.now))
      else Newest(t.ledger, key) == Newest(d.ledger, key) && key !in InMemory(t.lockFile)
  {
    hide FetchAt, Newest, FetchMany;
    var s, key := Opened(d), keys[i];
    BatchIsItsOwnFetch(o, s, mapped, keys, commit, replies, i);
    FetchExactly(o, s, key, commit, replies[i]);
    NewestAfterOwnFetch(o, s, mapped, keys, commit, replies, i);
  }

  /** The newest row of a system listed once is what its fetch leaves. */
  lemma NewestAfterOwnFetch(o: Oracle, s: Store, mapped: set<Key>, keys: seq<Key>, commit: string, replies: seq<Reply>,
                            i: nat)
    requires i < |keys| == |replies| && Distinct(keys) && keys[i] in mapped
    ensures Newest(FetchMany(o, s, mapped, keys, commit, replies, |keys|).ledger, keys[i]) ==
      if !LockedAt(s, keys[i], commit) && Accepted(o, replies[i])
      then Some(Version(keys[i], commit, o.hash(replies[i].body.value), o.parse(replies[i].body.value).value,
                        replies[i].now))
      else Newest(s.ledger, keys[i])
  {
    hide FetchAt, Newest;
    var key, r := keys[i], replies[i];
    var before := FetchMany(o, s, mapped, keys, commit, replies, i);
    OtherFetchesKeep(o, s, mapped, keys, commit, replies, 0, i, key);
    OtherFetchesKeepNewest(o, s, mapped, keys, commit, replies, 0, i, key);
    FetchExactly(o, before, key, commit, r);
    if !LockedAt(before, key, commit) && Accepted(o, r) {
      var v := Version(key, commit, o.hash(r.body.value), o.parse(r.body.value).value, r.now);
      NewestAppended(before.ledger, v, key);
    }
    OtherFetchesKeepNewest(o, s, mapped, keys, commit, replies, i + 1, |keys|, key);
  }

  // ---------------------------------------------------------------- examples

  const EXAMPLE_ORACLE := Oracle((b: Bytes) => b, (b: Bytes) => Some(0))
  const OLD_COMMIT := "aaaaaaaaaaaaaaaaaaaaaaaaaaaaaaaaaaaaaaaa"
  const NEW_COMMIT := "bbbbbbbbbbbbbbbbbbbbbbbbbbbbbbbbbbbbbbbb"
  const EXAMPLE_DISK := Disk(Document(map["nes" := Entry(OLD_COMMIT, "old", 0, 1)]), map["nes" := "old"],
                             [Version("nes", OLD_COMMIT, "old", 0, 1)])

  /** A refresh of the example at the new commit, to which upstream answers with new bytes. */
  function ExampleRefresh(rowStored: bool, lockWritten: bool): Disk {
    var r := Reply(Some("new"), true, true, rowStored, 2);
    RefreshAt(EXAMPLE_ORACLE, EXAMPLE_DISK, {"nes"}, ["nes"], Some(NEW_COMMIT), [r], lockWritten)
  }

  lemma ExampleIsAttested()
    ensures Agree(InMemory(EXAMPLE_DISK.lockFile), EXAMPLE_DISK.ledger) &&
      Attested(EXAMPLE_ORACLE, Opened(EXAMPLE_DISK), "nes")
    ensures |NEW_COMMIT| == SHA_LENGTH && NEW_COMMIT != OLD_COMMIT
  {
    assert NEW_COMMIT[0] != OLD_COMMIT[0];
  }

  /**
   A refused ledger row is enough, lock file written or not, and so is a failed write of the
   lock file with everything else stored: the new file stays behind and the gate refuses it.
   */
  lemma AttestationLostExample(rowStored: bool, lockWritten: bool, staging: Staging)
    ensures var t := ExampleRefresh(rowStored, lockWritten);
      ProcessSystem(EXAMPLE_ORACLE, t.lockFile, t.files, "nes", staging) == DatLockRefused <==>
        !rowStored || !lockWritten
  {
    ExampleIsAttested();
    assert "new"[0] != "old"[0];
    GateAfterRefresh(EXAMPLE_ORACLE, EXAMPLE_DISK, {"nes"}, ["nes"], Some(NEW_COMMIT),
                     [Reply(Some("new"), true, true, rowStored, 2)], lockWritten, "nes", staging);
  }

  /** One accepted generation and a failed write are enough to leave the lock file behind the ledger. */
  lemma LockFallsBehindExample(lockWritten: bool)
    ensures var t := ExampleRefresh(true, lockWritten); Agree(InMemory(t.lockFile), t.ledger) <==> lockWritten
  {
    ExampleIsAttested();
    var r := Reply(Some("new"), true, true, true, 2);
    RefreshedLockAgreesExactly(EXAMPLE_ORACLE, EXAMPLE_DISK, {"nes"}, ["nes"], Some(NEW_COMMIT), [r], lockWritten);
    assert MovesLocked(EXAMPLE_ORACLE, InMemory(EXAMPLE_DISK.lockFile), {"nes"}, ["nes"][0], Some(NEW_COMMIT), [r][0]);
  }
}
