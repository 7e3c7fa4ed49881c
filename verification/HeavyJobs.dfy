module HeavyJobs {
  // One heavy job at a time: the shared pipeline slot and the running flags of the
  // verify runner, the scrape driver and the generator (pkgs/arcade-webapp
  // internal/pipeline, internal/igir, internal/scrape, internal/generate and the
  // slot probe of internal/web/verify.go).
  //
  // The classes give each operation's sequential contract; World interleaves any
  // number of their calls, one step per critical section.

  import opened Options

  // ---------------------------------------------------------------- the locks, one call at a time

  /** pipeline.Mutex: a try-lock. */
  class Mutex {
    var locked: bool

    constructor ()
      ensures !locked
    {
      locked := false;
    }

    method TryAcquire() returns (ok: bool)
      modifies this
      ensures ok == !old(locked) && locked
    {
      ok := !locked;
      locked := true;
    }

    method Release()
      requires locked
      modifies this
      ensures !locked
    {
      locked := false;
    }
  }

  datatype Outcome = Busy | Failed | Done

  class Generator {
    const pipeline: Mutex
    var running: bool
    var rendered: nat

    constructor (pipeline: Mutex)
      ensures this.pipeline == pipeline && !running && rendered == 0
    {
      this.pipeline, running, rendered := pipeline, false, 0;
    }

    /** Takes the running flag, then the slot, or fails holding neither. */
    method Claim() returns (ok: bool)
      modifies this, pipeline
      ensures ok == (!old(running) && !old(pipeline.locked)) && rendered == old(rendered)
      ensures ok ==> running && pipeline.locked
      ensures !ok ==> running == old(running) && pipeline.locked == old(pipeline.locked)
    {
      if running {
        return false;
      }
      running := true;
      ok := pipeline.TryAcquire();
      if !ok {
        running := false;
      }
    }

    method Release()
      requires running && pipeline.locked
      modifies this, pipeline
      ensures !running && !pipeline.locked && rendered == old(rendered)
    {
      pipeline.Release();
      running := false;
    }

    /** One pass: options are read between Claim and Release; readOk and runOk are the outcomes of provider and run. */
    method GenerateFresh(version: nat, readOk: bool, runOk: bool) returns (r: Outcome)
      modifies this, pipeline
      ensures running == old(running) && pipeline.locked == old(pipeline.locked)
      ensures r.Busy? <==> old(running) || old(pipeline.locked)
      ensures r.Done? <==> !r.Busy? && readOk && runOk
      ensures rendered == if r.Done? then version else old(rendered)
    {
      var ok := Claim();
      if !ok {
        return Busy;
      }
      if readOk && runOk {
        rendered := version;
      }
      Release();
      return if readOk && runOk then Done else Failed;
    }
  }

  class VerifyRunner {
    const pipeline: Mutex
    var running: bool

    constructor (pipeline: Mutex)
      ensures this.pipeline == pipeline && !running
    {
      this.pipeline, running := pipeline, false;
    }

    /** The slot first, then the flag; both are back as found on every path. */
    method Verify(batchOk: bool) returns (r: Outcome)
      modifies this, pipeline
      ensures running == old(running) && pipeline.locked == old(pipeline.locked)
      ensures r.Busy? <==> old(running) || old(pipeline.locked)
      ensures r.Done? <==> !r.Busy? && batchOk
    {
      var ok := pipeline.TryAcquire();
      if !ok {
        return Busy;
      }
      if running {
        r := Busy;
      } else {
        running := true;
        r := if batchOk then Done else Failed;
        running := false;
      }
      pipeline.Release();
    }
  }

  class ScrapeDriver {
    const pipeline: Mutex
    var running: bool

    constructor (pipeline: Mutex)
      ensures this.pipeline == pipeline && !running
    {
      this.pipeline, running := pipeline, false;
    }

    /** Launches the background job, which keeps both locks until Finish, or leaves both as found. */
    method Start(recordOk: bool) returns (r: Outcome)
      modifies this, pipeline
      ensures r.Busy? <==> old(running) || old(pipeline.locked)
      ensures r.Done? <==> !r.Busy? && recordOk
      ensures r.Done? ==> running && pipeline.locked
      ensures !r.Done? ==> running == old(running) && pipeline.locked == old(pipeline.locked)
    {
      if running {
        return Busy;
      }
      running := true;
      var ok := pipeline.TryAcquire();
      if !ok {
        running := false;
        return Busy;
      }
      if !recordOk {
        running := false;
        pipeline.Release();
        return Failed;
      }
      return Done;
    }

    /** The deferred calls at the end of the background job. */
    method Finish()
      requires running && pipeline.locked
      modifies this, pipeline
      ensures !running && !pipeline.locked
    {
      running := false;
      pipeline.Release();
    }
  }

  // ---------------------------------------------------------------- interleavings

  /** Where one call is. Only Refused and Finished are final. */
  datatype Job =
    | ProbeStart | ProbeTrying | ProbeHolding
    | VerifyStart | VerifySlotted | VerifyRunning | VerifyLeaving
    | ScrapeStart | ScrapeFlagged | ScrapeUnflagging | ScrapeSlotted | ScrapeRunning | ScrapeLeaving
    | GenStart | GenFlagged | GenBackingOut | GenSlotted | GenRead(version: nat) | GenReleasing | GenUnflagging
    | Refused | Finished

  /**
   A lock is None when free; the call that took it is recorded. Releasing a lock
   frees it whoever holds it, as sync.Mutex and a plain flag do.
   */
  datatype World = World(
    jobs: map<nat, Job>,
    slot: Option<nat>,
    verifying: Option<nat>,
    scraping: Option<nat>,
    generating: Option<nat>,
    version: nat,   // mutations stored so far
    rendered: nat   // version of the options rendered last
  )

  datatype Step =
    | Arrive(t: nat, job: Job)
    | Advance(t: nat, ok: bool) // ok: outcome of the foreign call in the step, if any
    | Mutate

  ghost predicate Arriving(j: Job) {
    j.ProbeStart? || j.VerifyStart? || j.ScrapeStart? || j.GenStart?
  }

  ghost predicate Over(j: Job) { j.Refused? || j.Finished? }

  ghost predicate Enabled(w: World, s: Step) {
    match s
    case Arrive(t, job) => t !in w.jobs && Arriving(job)
    case Advance(t, _) => t in w.jobs && !Over(w.jobs[t])
    case Mutate => true
  }

  ghost function At(w: World, t: nat, j: Job): World {
    w.(jobs := w.jobs[t := j])
  }

  ghost function Move(w: World, t: nat, ok: bool): World
    requires t in w.jobs && !Over(w.jobs[t])
  {
    match w.jobs[t]
    case ProbeStart => if w.verifying.Some? then At(w, t, Refused) else At(w, t, ProbeTrying)
    case ProbeTrying => if w.slot.Some? then At(w, t, Refused) else At(w, t, ProbeHolding).(slot := Some(t))
    case ProbeHolding => At(w, t, VerifyStart).(slot := None)
    case VerifyStart => if w.slot.Some? then At(w, t, Refused) else At(w, t, VerifySlotted).(slot := Some(t))
    case VerifySlotted =>
      if w.verifying.Some? then At(w, t, VerifyLeaving) else At(w, t, VerifyRunning).(verifying := Some(t))
    case VerifyRunning => At(w, t, VerifyLeaving).(verifying := None)
    case VerifyLeaving => At(w, t, Finished).(slot := None)
    case ScrapeStart =>
      if w.scraping.Some? then At(w, t, Refused) else At(w, t, ScrapeFlagged).(scraping := Some(t))
    case ScrapeFlagged =>
      if w.slot.Some? then At(w, t, ScrapeUnflagging) else At(w, t, ScrapeSlotted).(slot := Some(t))
    case ScrapeUnflagging => At(w, t, Refused).(scraping := None)
    case ScrapeSlotted => if ok then At(w, t, ScrapeRunning) else At(w, t, ScrapeLeaving).(scraping := None)
    case ScrapeRunning => At(w, t, ScrapeLeaving).(scraping := None)
    case ScrapeLeaving => At(w, t, Finished).(slot := None)
    case GenStart =>
      if w.generating.Some? then At(w, t, Refused) else At(w, t, GenFlagged).(generating := Some(t))
    case GenFlagged =>
      if w.slot.Some? then At(w, t, GenBackingOut) else At(w, t, GenSlotted).(slot := Some(t))
    case GenBackingOut => At(w, t, Refused).(generating := None)
    case GenSlotted => if ok then At(w, t, GenRead(w.version)) else At(w, t, GenReleasing)
    case GenRead(v) => if ok then At(w, t, GenReleasing).(rendered := v) else At(w, t, GenReleasing)
    case GenReleasing => At(w, t, GenUnflagging).(slot := None)
    case GenUnflagging => At(w, t, Finished).(generating := None)
  }

  ghost function Do(w: World, s: Step): World
    requires Enabled(w, s)
  {
    match s
    case Arrive(t, job) => At(w, t, job)
    case Advance(t, ok) => Move(w, t, ok)
    case Mutate => w.(version := w.version + 1)
  }

  ghost predicate Init(w: World) {
    w == World(map[], None, None, None, None, 0, 0)
  }

  ghost predicate Runs(w: World, steps: seq<Step>)
    decreases |steps|
  {
    steps == [] || (Enabled(w, steps[0]) && Runs(Do(w, steps[0]), steps[1..]))
  }

  ghost function After(w: World, steps: seq<Step>): World
    requires Runs(w, steps)
    decreases |steps|
  {
    if steps == [] then w else After(Do(w, steps[0]), steps[1..])
  }

  ghost predicate Reachable(w: World) {
    exists w0, steps :: Init(w0) && Runs(w0, steps) && After(w0, steps) == w
  }

  // What a call holds, by its position alone.

  ghost predicate HoldsSlot(j: Job) {
    j.ProbeHolding? || j.VerifySlotted? || j.VerifyRunning? || j.VerifyLeaving? || j.ScrapeSlotted? ||
    j.ScrapeRunning? || j.ScrapeLeaving? || j.GenSlotted? || j.GenRead? || j.GenReleasing?
  }

  ghost predicate HoldsVerify(j: Job) { j.VerifyRunning? }

  ghost predicate HoldsScrape(j: Job) {
    j.ScrapeFlagged? || j.ScrapeUnflagging? || j.ScrapeSlotted? || j.ScrapeRunning?
  }

  ghost predicate HoldsGenerate(j: Job) {
    j.GenFlagged? || j.GenBackingOut? || j.GenSlotted? || j.GenRead? || j.GenReleasing? || j.GenUnflagging?
  }

  ghost predicate SlotMatches(w: World) {
    forall t :: t in w.jobs && HoldsSlot(w.jobs[t]) <==> w.slot == Some(t)
  }

  ghost predicate VerifyMatches(w: World) {
    forall t :: t in w.jobs && HoldsVerify(w.jobs[t]) <==> w.verifying == Some(t)
  }

  ghost predicate ScrapeMatches(w: World) {
    forall t :: t in w.jobs && HoldsScrape(w.jobs[t]) <==> w.scraping == Some(t)
  }

  ghost predicate GenerateMatches(w: World) {
    forall t :: t in w.jobs && HoldsGenerate(w.jobs[t]) <==> w.generating == Some(t)
  }

  /** Every lock is held by exactly the call whose position says so. */
  ghost predicate LocksMatch(w: World) {
    SlotMatches(w) && VerifyMatches(w) && ScrapeMatches(w) && GenerateMatches(w)
  }

  ghost predicate ReadsFresh(w: World) {
    w.rendered <= w.version &&
    forall t :: t in w.jobs && w.jobs[t].GenRead? ==> w.rendered <= w.jobs[t].version <= w.version
  }

  ghost predicate Inv(w: World) { LocksMatch(w) && ReadsFresh(w) }

  lemma MoveKeepsSlot(w: World, t: nat, ok: bool)
    requires SlotMatches(w) && t in w.jobs && !Over(w.jobs[t])
    ensures SlotMatches(Move(w, t, ok))
  {
    var w' := Move(w, t, ok);
    forall u
      ensures u in w'.jobs && HoldsSlot(w'.jobs[u]) <==> w'.slot == Some(u)
    {
      assert u != t && u in w.jobs ==> w'.jobs[u] == w.jobs[u];
      assert t in w.jobs && HoldsSlot(w.jobs[t]) <==> w.slot == Some(t);
    }
  }

  lemma MoveKeepsVerify(w: World, t: nat, ok: bool)
    requires VerifyMatches(w) && t in w.jobs && !Over(w.jobs[t])
    ensures VerifyMatches(Move(w, t, ok))
  {
    var w' := Move(w, t, ok);
    forall u
      ensures u in w'.jobs && HoldsVerify(w'.jobs[u]) <==> w'.verifying == Some(u)
    {
      assert u != t && u in w.jobs ==> w'.jobs[u] == w.jobs[u];
      assert t in w.jobs && HoldsVerify(w.jobs[t]) <==> w.verifying == Some(t);
    }
  }

  lemma MoveKeepsScrape(w: World, t: nat, ok: bool)
    requires ScrapeMatches(w) && t in w.jobs && !Over(w.jobs[t])
    ensures ScrapeMatches(Move(w, t, ok))
  {
    var w' := Move(w, t, ok);
    forall u
      ensures u in w'.jobs && HoldsScrape(w'.jobs[u]) <==> w'.scraping == Some(u)
    {
      assert u != t && u in w.jobs ==> w'.jobs[u] == w.jobs[u];
      assert t in w.jobs && HoldsScrape(w.jobs[t]) <==> w.scraping == Some(t);
    }
  }

  lemma MoveKeepsGenerate(w: World, t: nat, ok: bool)
    requires GenerateMatches(w) && t in w.jobs && !Over(w.jobs[t])
    ensures GenerateMatches(Move(w, t, ok))
  {
    var w' := Move(w, t, ok);
    forall u
      ensures u in w'.jobs && HoldsGenerate(w'.jobs[u]) <==> w'.generating == Some(u)
    {
      assert u != t && u in w.jobs ==> w'.jobs[u] == w.jobs[u];
      assert t in w.jobs && HoldsGenerate(w.jobs[t]) <==> w.generating == Some(t);
    }
  }

  lemma MoveKeepsFreshness(w: World, t: nat, ok: bool)
    requires Inv(w) && t in w.jobs && !Over(w.jobs[t])
    ensures ReadsFresh(Move(w, t, ok)) && w.rendered <= Move(w, t, ok).rendered
  {
    var w' := Move(w, t, ok);
    forall u | u in w'.jobs && w'.jobs[u].GenRead?
      ensures w'.rendered <= w'.jobs[u].version <= w'.version
    {
      assert HoldsSlot(w.jobs[t]) ==> w.slot == Some(t);
      assert u != t ==> w.slot == Some(u);
    }
  }

  /** A call that arrives and a stored mutation touch no lock. */
  lemma ArrivalKeepsInv(w: World, s: Step)
    requires Inv(w) && Enabled(w, s) && !s.Advance?
    ensures Inv(Do(w, s)) && w.rendered <= Do(w, s).rendered
  {
  }

  lemma StepKeepsInv(w: World, s: Step)
    requires Inv(w) && Enabled(w, s)
    ensures Inv(Do(w, s)) && w.rendered <= Do(w, s).rendered
  {
    match s {
      case Advance(t, ok) =>
        hide Move, SlotMatches, VerifyMatches, ScrapeMatches, GenerateMatches;
        MoveKeepsSlot(w, t, ok);
        MoveKeepsVerify(w, t, ok);
        MoveKeepsScrape(w, t, ok);
        MoveKeepsGenerate(w, t, ok);
        MoveKeepsFreshness(w, t, ok);
      case _ => ArrivalKeepsInv(w, s);
    }
  }

  lemma {:induction false} RunKeepsInv(w: World, steps: seq<Step>)
    requires Inv(w) && Runs(w, steps)
    ensures Inv(After(w, steps)) && w.rendered <= After(w, steps).rendered
    decreases |steps|
  {
    hide Do, Enabled, Inv;
    if steps != [] {
      StepKeepsInv(w, steps[0]);
      RunKeepsInv(Do(w, steps[0]), steps[1..]);
    }
  }

  lemma ReachableInv(w: World)
    requires Reachable(w)
    ensures Inv(w)
  {
    var w0, steps :| Init(w0) && Runs(w0, steps) && After(w0, steps) == w;
    RunKeepsInv(w0, steps);
  }

  // ---------------------------------------------------------------- what follows

  /** At most one call of any kind is inside the slot. */
  lemma OneHeavyJob(w: World, t: nat, u: nat)
    requires Reachable(w) && t in w.jobs && u in w.jobs
    requires HoldsSlot(w.jobs[t]) && HoldsSlot(w.jobs[u])
    ensures t == u
  {
    ReachableInv(w);
  }

  /** A lock is only ever released by the call that holds it. */
  lemma OnlyTheHolderReleases(w: World, t: nat, ok: bool)
    requires Reachable(w) && t in w.jobs && !Over(w.jobs[t])
    ensures w.slot.Some? && Move(w, t, ok).slot.None? ==> w.slot == Some(t)
    ensures w.verifying.Some? && Move(w, t, ok).verifying.None? ==> w.verifying == Some(t)
    ensures w.scraping.Some? && Move(w, t, ok).scraping.None? ==> w.scraping == Some(t)
    ensures w.generating.Some? && Move(w, t, ok).generating.None? ==> w.generating == Some(t)
    ensures w.jobs[t].ProbeHolding? || w.jobs[t].VerifyLeaving? ==> w.slot == Some(t)
    ensures w.jobs[t].ScrapeLeaving? || w.jobs[t].GenReleasing? ==> w.slot == Some(t)
  {
    ReachableInv(w);
  }

  /** Once every call is over, refused or not, the slot and all three flags are free. */
  lemma EveryExitReleases(w: World)
    requires Reachable(w) && forall t :: t in w.jobs ==> Over(w.jobs[t])
    ensures w.slot.None? && w.verifying.None? && w.scraping.None? && w.generating.None?
  {
    ReachableInv(w);
    assert forall t :: w.slot != Some(t) && w.verifying != Some(t);
    assert forall t :: w.scraping != Some(t) && w.generating != Some(t);
    match (w.slot, w.verifying, w.scraping, w.generating) {
      case (None, None, None, None) =>
      case _ => assert false;
    }
  }

  /** With the shared slot in place, verifyLocked never meets its own running flag. */
  lemma VerifyFlagNeverContended(w: World, t: nat)
    requires Reachable(w) && t in w.jobs && w.jobs[t].VerifySlotted?
    ensures w.verifying.None?
  {
    ReachableInv(w);
    if w.verifying.Some? {
      var u := w.verifying.value;
      assert w.verifying == Some(u);
      assert HoldsSlot(w.jobs[u]);
    }
  }

  /** The step with which a start is refused changes no lock but the flag the call itself had taken. */
  lemma RefusalLeavesLocksAsFound(w: World, t: nat, ok: bool)
    requires Reachable(w) && t in w.jobs && !Over(w.jobs[t]) && Move(w, t, ok).jobs[t].Refused?
    ensures var w' := Move(w, t, ok);
      w'.slot == w.slot && w.slot != Some(t) && w'.verifying == w.verifying &&
      w'.scraping == (if w.scraping == Some(t) then None else w.scraping) &&
      w'.generating == (if w.generating == Some(t) then None else w.generating)
  {
    ReachableInv(w);
  }

  /** Successive passes never render an older options snapshot after a newer one. */
  lemma RenderingNeverGoesBack(w: World, steps: seq<Step>)
    requires Reachable(w) && Runs(w, steps)
    ensures w.rendered <= After(w, steps).rendered
  {
    ReachableInv(w);
    RunKeepsInv(w, steps);
  }

  // ---------------------------------------------------------------- who is turned away, and what a pass renders

  ghost predicate SomeHolds(w: World, holds: Job -> bool) {
    exists t :: t in w.jobs && holds(w.jobs[t])
  }

  /** The lock the call is about to try is held by some call. */
  ghost predicate FindsTaken(w: World, j: Job) {
    match j
    case ProbeStart => SomeHolds(w, HoldsVerify)
    case VerifySlotted => SomeHolds(w, HoldsVerify)
    case ScrapeStart => SomeHolds(w, HoldsScrape)
    case GenStart => SomeHolds(w, HoldsGenerate)
    case _ => Tries(j) && SomeHolds(w, HoldsSlot)
  }

  ghost predicate Tries(j: Job) {
    Arriving(j) || j.ProbeTrying? || j.VerifySlotted? || j.ScrapeFlagged? || j.GenFlagged?
  }

  ghost predicate BacksOut(j: Job) { j.Refused? || j.ScrapeUnflagging? || j.GenBackingOut? }

  lemma TurnedAwayByLock(w: World, t: nat, ok: bool)
    requires t in w.jobs && !Over(w.jobs[t]) && !BacksOut(w.jobs[t]) && !w.jobs[t].VerifySlotted?
    ensures BacksOut(Move(w, t, ok).jobs[t]) <==>
      match w.jobs[t]
      case ProbeStart => w.verifying.Some?
      case ScrapeStart => w.scraping.Some?
      case GenStart => w.generating.Some?
      case _ => Tries(w.jobs[t]) && w.slot.Some?
  {
  }

  /** A call is turned away exactly when another call holds the lock it tries. */
  lemma TurnedAwayExactly(w: World, t: nat, ok: bool)
    requires Reachable(w) && t in w.jobs && !Over(w.jobs[t]) && !BacksOut(w.jobs[t])
    ensures BacksOut(Move(w, t, ok).jobs[t]) <==> FindsTaken(w, w.jobs[t])
  {
    ReachableInv(w);
    HeldExactly(w);
    hide LocksMatch, SomeHolds, HoldsSlot, HoldsVerify, HoldsScrape, HoldsGenerate, ReadsFresh;
    if w.jobs[t].VerifySlotted? {
      VerifyFlagNeverContended(w, t);
    } else {
      TurnedAwayByLock(w, t, ok);
      hide Move;
    }
  }

  lemma HeldExactly(w: World)
    requires LocksMatch(w)
    ensures w.slot.Some? <==> SomeHolds(w, HoldsSlot)
    ensures w.verifying.Some? <==> SomeHolds(w, HoldsVerify)
    ensures w.scraping.Some? <==> SomeHolds(w, HoldsScrape)
    ensures w.generating.Some? <==> SomeHolds(w, HoldsGenerate)
  {
    if w.slot.Some? { assert w.slot == Some(w.slot.value); }
    if w.verifying.Some? { assert w.verifying == Some(w.verifying.value); }
    if w.scraping.Some? { assert w.scraping == Some(w.scraping.value); }
    if w.generating.Some? { assert w.generating == Some(w.generating.value); }
  }

  /** How many steps a call that is never refused still takes. */
  ghost function StepsLeft(j: Job): nat {
    match j
    case ProbeStart => 7 case ProbeTrying => 6 case ProbeHolding => 5
    case VerifyStart => 4 case VerifySlotted => 3 case VerifyRunning => 2 case VerifyLeaving => 1
    case ScrapeStart => 5 case ScrapeFlagged => 4 case ScrapeUnflagging => 1
    case ScrapeSlotted => 3 case ScrapeRunning => 2 case ScrapeLeaving => 1
    case GenStart => 6 case GenFlagged => 5 case GenBackingOut => 1
    case GenSlotted => 4 case GenRead(_) => 3 case GenReleasing => 2 case GenUnflagging => 1
    case Refused => 0
    case Finished => 0
  }

  /** The version rendered once the call is through: a pass that has not read its options yet gets the newest. */
  ghost function ToRender(w: World, j: Job): nat {
    if j.GenStart? || j.GenFlagged? || j.GenSlotted? then w.version
    else if j.GenRead? then j.version
    else w.rendered
  }

  /** Whatever lock is held, this call holds it. */
  ghost predicate OwnLocksOnly(w: World, j: Job) {
    (w.slot.Some? ==> HoldsSlot(j)) && (w.verifying.Some? ==> HoldsVerify(j)) &&
    (w.scraping.Some? ==> HoldsScrape(j)) && (w.generating.Some? ==> HoldsGenerate(j))
  }

  lemma AloneHolds(w: World, t: nat)
    requires LocksMatch(w) && t in w.jobs && forall u :: u in w.jobs && u != t ==> Over(w.jobs[u])
    ensures OwnLocksOnly(w, w.jobs[t])
  {
    HeldExactly(w);
  }

  /** Where a call goes that finds every lock free and meets no failure. */
  ghost function Undisturbed(j: Job, version: nat): Job {
    match j
    case ProbeStart => ProbeTrying case ProbeTrying => ProbeHolding case ProbeHolding => VerifyStart
    case VerifyStart => VerifySlotted case VerifySlotted => VerifyRunning case VerifyRunning => VerifyLeaving
    case ScrapeStart => ScrapeFlagged case ScrapeFlagged => ScrapeSlotted case ScrapeSlotted => ScrapeRunning
    case ScrapeRunning => ScrapeLeaving
    case GenStart => GenFlagged case GenFlagged => GenSlotted case GenSlotted => GenRead(version)
    case GenRead(_) => GenReleasing case GenReleasing => GenUnflagging
    case _ => Finished
  }

  lemma AloneAdvances(w: World, t: nat)
    requires t in w.jobs && !Over(w.jobs[t]) && !BacksOut(w.jobs[t]) && OwnLocksOnly(w, w.jobs[t])
    ensures Move(w, t, true).jobs[t] == Undisturbed(w.jobs[t], w.version)
  {
  }

  lemma OneStepLess(j: Job, version: nat)
    requires !Over(j) && !BacksOut(j)
    ensures !BacksOut(Undisturbed(j, version)) && StepsLeft(Undisturbed(j, version)) == StepsLeft(j) - 1
  {
  }

  lemma OnlyItMoves(w: World, t: nat)
    requires t in w.jobs && !Over(w.jobs[t])
    ensures forall u :: u != t ==> (
      (u in Move(w, t, true).jobs <==> u in w.jobs) && (u in w.jobs ==> Move(w, t, true).jobs[u] == w.jobs[u]))
  {
  }

  lemma AloneRenders(w: World, t: nat)
    requires t in w.jobs && !Over(w.jobs[t]) && !BacksOut(w.jobs[t]) && OwnLocksOnly(w, w.jobs[t])
    ensures ToRender(Move(w, t, true), Move(w, t, true).jobs[t]) == ToRender(w, w.jobs[t])
  {
    AloneAdvances(w, t);
  }

  ghost predicate Alone(w: World, t: nat) {
    Inv(w) && t in w.jobs && !BacksOut(w.jobs[t]) && forall u :: u in w.jobs && u != t ==> Over(w.jobs[u])
  }

  lemma AloneStep(w: World, t: nat)
    requires Alone(w, t) && !w.jobs[t].Finished?
    ensures var s := Advance(t, true);
      Enabled(w, s) && Alone(Do(w, s), t) && StepsLeft(Do(w, s).jobs[t]) == StepsLeft(w.jobs[t]) - 1 &&
      ToRender(Do(w, s), Do(w, s).jobs[t]) == ToRender(w, w.jobs[t])
  {
    AloneHolds(w, t);
    AloneAdvances(w, t);
    OneStepLess(w.jobs[t], w.version);
    OnlyItMoves(w, t);
    AloneRenders(w, t);
    StepKeepsInv(w, Advance(t, true));
    hide Inv, Move, OwnLocksOnly, Undisturbed, ToRender, StepsLeft;
  }

  /**
   A call that has not been turned away and has the field to itself finishes when nothing
   fails; a pass that has not read its options yet then leaves the newest version rendered.
   */
  lemma {:induction false} AloneFinishes(w: World, t: nat) returns (steps: seq<Step>)
    requires Alone(w, t)
    ensures |steps| == StepsLeft(w.jobs[t]) && forall k :: 0 <= k < |steps| ==> steps[k] == Advance(t, true)
    ensures Runs(w, steps) && t in After(w, steps).jobs && After(w, steps).jobs[t].Finished?
    ensures After(w, steps).rendered == ToRender(w, w.jobs[t])
    decreases StepsLeft(w.jobs[t])
  {
    steps := [];
    if !w.jobs[t].Finished? {
      hide Inv, Do, Enabled, ToRender, StepsLeft;
      AloneStep(w, t);
      var rest := AloneFinishes(Do(w, Advance(t, true)), t);
      steps := [Advance(t, true)] + rest;
      assert steps[1..] == rest;
    }
  }

  /** The pass has the slot and has read no options older than those of the version. */
  ghost predicate WillCover(w: World, t: nat, version: nat) {
    t in w.jobs && version <= w.version &&
    (w.jobs[t].GenRead? ==> version <= w.jobs[t].version) && !w.jobs[t].GenStart? && !w.jobs[t].GenFlagged?
  }

  lemma {:induction false} StillCovers(w: World, steps: seq<Step>, t: nat, version: nat)
    requires Runs(w, steps) && WillCover(w, t, version)
    ensures WillCover(After(w, steps), t, version)
    decreases |steps|
  {
    if steps != [] {
      StepCovers(w, steps[0], t, version);
      StillCovers(Do(w, steps[0]), steps[1..], t, version);
    }
  }

  lemma StepCovers(w: World, s: Step, t: nat, version: nat)
    requires Enabled(w, s) && WillCover(w, t, version)
    ensures WillCover(Do(w, s), t, version)
  {
  }

  /**
   Every edit stored before a pass took the slot is rendered when that pass succeeds, and
   stays rendered, whatever other calls do in between and afterwards.
   */
  lemma EditsBeforeTheClaimAreRendered(w: World, t: nat, during: seq<Step>, later: seq<Step>)
    requires Reachable(w) && t in w.jobs && w.jobs[t].GenSlotted?
    requires Runs(w, during) && t in After(w, during).jobs && After(w, during).jobs[t].GenRead?
    requires Runs(Do(After(w, during), Advance(t, true)), later)
    ensures w.version <= After(Do(After(w, during), Advance(t, true)), later).rendered
  {
    ReachableInv(w);
    StillCovers(w, during, t, w.version);
    RunKeepsInv(w, during);
    var read := After(w, during);
    StepKeepsInv(read, Advance(t, true));
    var done := Do(read, Advance(t, true));
    assert done.rendered == read.jobs[t].version;
    hide Inv, Move;
    RunKeepsInv(done, later);
  }
}
