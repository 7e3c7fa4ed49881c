module Regen {
  // The regeneration coordinator (pkgs/arcade-webapp/internal/web/generate.go).
  //
  // Any number of request handlers, one worker, a dirty flag, a capacity-1 wake
  // channel and a quiet gate. Coordinator holds the fields guarded by regenMu and
  // has one method per critical section; World adds the worker's position, the
  // requests in flight and the pipeline slot, and takes one step per critical
  // section, channel operation or call boundary.

  import opened Options

  type Origin = string

  /** regenCoalesceWindow, in milliseconds of the logical clock. */
  const WINDOW: nat := 100

  // ---------------------------------------------------------------- the guarded fields

  datatype Coord = Coord(dirty: bool, origins: set<Origin>, deferredRow: bool, passActive: bool, lastRequestAt: nat) {
    function Request(origin: Origin, now: nat): Coord {
      this.(dirty := true, lastRequestAt := now, origins := origins + {origin})
    }

    function Claim(): Coord {
      if dirty then this.(dirty := false, passActive := true) else this
    }

    predicate Quiet(now: nat) { now >= lastRequestAt + WINDOW }

    function Requeue(back: set<Origin>): Coord {
      this.(dirty := true, origins := origins + back)
    }

    function Complete(): Coord {
      this.(deferredRow := false, passActive := false)
    }
  }

  class Coordinator {
    var dirty: bool
    var origins: set<Origin>
    var deferredRow: bool
    var passActive: bool
    var lastRequestAt: nat

    constructor ()
      ensures View() == Coord(false, {}, false, false, 0)
    {
      dirty, origins, deferredRow, passActive, lastRequestAt := false, {}, false, false, 0;
    }

    function View(): Coord
      reads this
    {
      Coord(dirty, origins, deferredRow, passActive, lastRequestAt)
    }

    /** The locked part of requestRegeneration. */
    method RequestLocked(origin: Origin, now: nat)
      modifies this
      ensures View() == old(View()).Request(origin, now)
    {
      dirty := true;
      lastRequestAt := now;
      origins := origins + {origin};
    }

    /** The test at the top of drainRegen's loop. */
    method Claim() returns (claimed: bool)
      modifies this
      ensures claimed == old(dirty) && View() == old(View()).Claim()
    {
      if !dirty {
        return false;
      }
      dirty := false;
      passActive := true;
      return true;
    }

    method GateOpen(now: nat) returns (quiet: bool)
      ensures quiet == View().Quiet(now)
    {
      quiet := now >= lastRequestAt + WINDOW;
    }

    method TakeOrigins() returns (taken: set<Origin>, deferred: bool)
      modifies this
      ensures taken == old(origins) && deferred == old(deferredRow)
      ensures View() == old(View()).(origins := {})
    {
      taken, deferred := origins, deferredRow;
      origins := {};
    }

    method Requeue(back: set<Origin>)
      modifies this
      ensures View() == old(View()).Requeue(back)
    {
      dirty := true;
      origins := origins + back;
    }

    method MarkDeferred()
      modifies this
      ensures View() == old(View()).(deferredRow := true)
    {
      deferredRow := true;
    }

    method EndPass()
      modifies this
      ensures View() == old(View()).(passActive := false)
    {
      passActive := false;
    }

    method Complete()
      modifies this
      ensures View() == old(View()).Complete()
    {
      deferredRow := false;
      passActive := false;
    }
  }

  // ---------------------------------------------------------------- the world

  /** Where the worker goroutine is. */
  datatype Worker =
    | Parked                                                    // receiving from wake
    | Woken                                                     // before the dirty test
    | Claimed                                                   // dirty cleared, before the Configured test
    | Dropping                                                  // no generator: about to return
    | Gate                                                      // polling for quiet
    | Quieted                                                   // gate passed, before taking the origins
    | Attempt(origins: set<Origin>, deferred: bool)             // calling GenerateFresh
    | Generating(origins: set<Origin>, deferred: bool)          // both locks held, options not read yet
    | Rendering(origins: set<Origin>, deferred: bool, read: nat) // options read
    | Finished                                                  // returned nil, before the outcome is recorded
    | Failing(origins: set<Origin>, deferred: bool, busy: bool) // returned an error, before requeueRegen
    | Deferring                                                 // requeued, before deferredRow is set
    | WritingRow                                                // deferredRow set, before the row is written
    | Ending                                                    // before endPass
    | Waiting                                                   // in waitForRegenSlot

  /** A handler between its store mutation and the return of requestRegeneration. */
  datatype Requester =
    | Committed(origin: Origin, version: nat) // mutation stored, before the locked part
    | Unlocked                                // before the send on wake

  /** Who holds the generator: automatic and manual passes exclude each other. */
  datatype Slot = Free | ByWorker | ByManual | ByManualReading(read: nat) | ByOther

  datatype World = World(
    c: Coord,
    configured: bool,
    started: bool,
    wake: bool,
    worker: Worker,
    requesters: map<nat, Requester>,
    slot: Slot,
    now: nat,
    version: nat,   // mutations stored so far
    requested: nat, // newest mutation whose request passed the locked part
    lastOk: nat     // version the last pass that returned without error read
  )

  datatype Step =
    | Mutate(id: nat, origin: Origin)
    | Lock(id: nat)
    | Send(id: nat)
    | WakeUp
    | TestDirty
    | TestConfigured
    | Drop
    | PollGate
    | TakeOrigins
    | ClaimSlot
    | FindBusy
    | ReadOptions(ok: bool)
    | Render(ok: bool)
    | RecordComplete
    | Requeue
    | MarkDeferred
    | WriteRow
    | EndPass
    | BackoffElapsed
    | BackoffWoken
    | ManualClaim
    | ManualRead(ok: bool)
    | ManualRender(ok: bool)
    | OtherClaim
    | OtherRelease
    | Tick

  ghost predicate Enabled(w: World, s: Step) {
    match s
    case Mutate(id, _) => id !in w.requesters
    case Lock(id) => id in w.requesters && w.requesters[id].Committed?
    case Send(id) => id in w.requesters && w.requesters[id].Unlocked?
    case WakeUp => w.started && w.worker.Parked? && w.wake
    case TestDirty => w.worker.Woken?
    case TestConfigured => w.worker.Claimed?
    case Drop => w.worker.Dropping?
    case PollGate => w.worker.Gate?
    case TakeOrigins => w.worker.Quieted?
    case ClaimSlot => w.worker.Attempt? && w.slot.Free?
    case FindBusy => w.worker.Attempt?
    case ReadOptions(_) => w.worker.Generating?
    case Render(_) => w.worker.Rendering?
    case RecordComplete => w.worker.Finished?
    case Requeue => w.worker.Failing?
    case MarkDeferred => w.worker.Deferring?
    case WriteRow => w.worker.WritingRow?
    case EndPass => w.worker.Ending?
    case BackoffElapsed => w.worker.Waiting?
    case BackoffWoken => w.worker.Waiting? && w.wake
    case ManualClaim => w.configured && w.slot.Free?
    case ManualRead(_) => w.slot.ByManual?
    case ManualRender(_) => w.slot.ByManualReading?
    case OtherClaim => w.slot.Free?
    case OtherRelease => w.slot.ByOther?
    case Tick => true
  }

  function Max(a: nat, b: nat): nat { if a < b then b else a }

  ghost function Do(w: World, s: Step): World
    requires Enabled(w, s)
  {
    match s
    case Mutate(id, origin) =>
      w.(version := w.version + 1, requesters := w.requesters[id := Committed(origin, w.version + 1)])
    case Lock(id) =>
      w.(started := true,
         c := w.c.Request(w.requesters[id].origin, w.now),
         requested := Max(w.requested, w.requesters[id].version),
         requesters := w.requesters[id := Unlocked])
    case Send(id) =>
      w.(wake := true, requesters := w.requesters - {id})
    case WakeUp => w.(wake := false, worker := Woken)
    case TestDirty => w.(c := w.c.Claim(), worker := if w.c.dirty then Claimed else Parked)
    case TestConfigured => w.(worker := if w.configured then Gate else Dropping)
    case Drop => w.(c := w.c.(passActive := false), worker := Parked)
    case PollGate => w.(worker := if w.c.Quiet(w.now) then Quieted else Gate)
    case TakeOrigins => w.(c := w.c.(origins := {}), worker := Attempt(w.c.origins, w.c.deferredRow))
    case ClaimSlot => w.(slot := ByWorker, worker := Generating(w.worker.origins, w.worker.deferred))
    case FindBusy => w.(worker := Failing(w.worker.origins, w.worker.deferred, true))
    case ReadOptions(ok) =>
      if ok then w.(worker := Rendering(w.worker.origins, w.worker.deferred, w.version))
      else w.(slot := Free, worker := Failing(w.worker.origins, w.worker.deferred, false))
    case Render(ok) =>
      if ok then w.(slot := Free, lastOk := w.worker.read, worker := Finished)
      else w.(slot := Free, worker := Failing(w.worker.origins, w.worker.deferred, false))
    case RecordComplete => w.(c := w.c.Complete(), worker := Woken)
    case Requeue =>
      w.(c := w.c.Requeue(w.worker.origins),
         worker := if w.worker.busy && !w.worker.deferred then Deferring else Ending)
    case MarkDeferred => w.(c := w.c.(deferredRow := true), worker := WritingRow)
    case WriteRow => w.(worker := Ending)
    case EndPass => w.(c := w.c.(passActive := false), worker := Waiting)
    case BackoffElapsed => w.(worker := Woken)
    case BackoffWoken => w.(wake := false, worker := Woken)
    case ManualClaim => w.(slot := ByManual)
    case ManualRead(ok) => w.(slot := if ok then ByManualReading(w.version) else Free)
    case ManualRender(ok) => w.(slot := Free, lastOk := if ok then w.slot.read else w.lastOk)
    case OtherClaim => w.(slot := ByOther)
    case OtherRelease => w.(slot := Free)
    case Tick => w.(now := w.now + 1)
  }

  ghost predicate Init(w: World) {
    w.c == Coord(false, {}, false, false, 0) && !w.started && !w.wake && w.worker.Parked? &&
    w.requesters == map[] && w.slot.Free? && w.version == w.requested == w.lastOk == 0
  }

  /** steps can be taken one after the other from w. */
  ghost predicate Runs(w: World, steps: seq<Step>)
    decreases |steps|
  {
    steps == [] || (Enabled(w, steps[0]) && Runs(Do(w, steps[0]), steps[1..]))
  }

  ghost function After(w: World, steps: seq<Step>): World
    requires Runs(w, steps)
    decreases |steps|
  {
    if steps == [] then w else After(Do(w, steps[0]), steps[1..])
  }

  ghost predicate Reachable(w: World) {
    exists w0, steps :: Init(w0) && Runs(w0, steps) && After(w0, steps) == w
  }

  // ---------------------------------------------------------------- invariant

  /** The worker is on its way back to the dirty test. */
  ghost predicate WillRetest(w: World) {
    !w.worker.Parked? && !w.worker.Dropping? && (w.worker.Claimed? ==> w.configured)
  }

  /** A request is between its unlock and its send. */
  ghost predicate SendPending(w: World) {
    exists id :: id in w.requesters && w.requesters[id].Unlocked?
  }

  ghost predicate NoLostWakeup(w: World) {
    w.c.dirty ==> w.started && (w.wake || SendPending(w) || WillRetest(w))
  }

  /** The worker holds a pass that will cover everything requested, or will requeue it. */
  ghost predicate Carries(w: World) {
    match w.worker
    case Claimed | Gate | Quieted | Attempt(_, _) | Generating(_, _) | Failing(_, _, _) => true
    case Rendering(_, _, read) => w.requested <= read
    case _ => false
  }

  ghost predicate Covered(w: World) {
    w.configured ==> w.requested <= w.lastOk || w.c.dirty || Carries(w)
  }

  ghost predicate CommittedNewest(w: World) {
    exists id :: id in w.requesters && w.requesters[id].Committed? && w.requesters[id].version == w.version
  }

  /** Only a slot holder has read options, and no later pass can have finished since. */
  ghost predicate SlotOk(w: World) {
    (w.slot.ByWorker? <==> w.worker.Generating? || w.worker.Rendering?) &&
    (w.worker.Rendering? ==> w.lastOk <= w.worker.read <= w.version) &&
    (w.slot.ByManualReading? ==> w.lastOk <= w.slot.read <= w.version) &&
    w.lastOk <= w.version
  }

  ghost predicate VersionsOk(w: World) {
    w.requested <= w.version && (w.requested == w.version || CommittedNewest(w)) &&
    forall id :: id in w.requesters && w.requesters[id].Committed? ==> w.requesters[id].version <= w.version
  }

  /** The worker's copy of deferredRow is current: only the worker writes the flag. */
  ghost predicate DeferralOk(w: World) {
    match w.worker
    case Attempt(_, deferred) => deferred == w.c.deferredRow
    case Generating(_, deferred) => deferred == w.c.deferredRow
    case Rendering(_, deferred, _) => deferred == w.c.deferredRow
    case Failing(_, deferred, _) => deferred == w.c.deferredRow
    case Deferring => !w.c.deferredRow
    case WritingRow => w.c.deferredRow
    case _ => true
  }

  ghost predicate Inv(w: World) {
    NoLostWakeup(w) && Covered(w) && SlotOk(w) && VersionsOk(w) && DeferralOk(w) &&
    (w.worker.Gate? ==> w.configured) && (!w.worker.Parked? ==> w.started)
  }

  lemma InitInv(w: World)
    requires Init(w)
    ensures Inv(w)
  {
  }

  lemma WakeupKept(w: World, s: Step)
    requires Inv(w) && Enabled(w, s)
    ensures NoLostWakeup(Do(w, s))
  {
    var w' := Do(w, s);
    match s {
      case Lock(id) => assert w'.requesters[id].Unlocked?;
      case Mutate(id, _) =>
        if SendPending(w) {
          var other :| other in w.requesters && w.requesters[other].Unlocked?;
          assert w'.requesters[other].Unlocked?;
        }
      case _ =>
    }
  }

  lemma VersionsKept(w: World, s: Step)
    requires VersionsOk(w) && Enabled(w, s)
    ensures VersionsOk(Do(w, s))
  {
    match s {
      case Mutate(id, origin) => MutateKeepsVersions(w, id, origin);
      case Lock(id) => LockKeepsVersions(w, id);
      case Send(id) => SendKeepsVersions(w, id);
      case _ => OthersKeepVersions(w, s);
    }
  }

  lemma MutateKeepsVersions(w: World, id: nat, origin: Origin)
    requires VersionsOk(w) && id !in w.requesters
    ensures VersionsOk(Do(w, Mutate(id, origin)))
  {
    var w' := Do(w, Mutate(id, origin));
    assert w'.requesters[id].version == w'.version;
  }

  lemma LockKeepsVersions(w: World, id: nat)
    requires VersionsOk(w) && Enabled(w, Lock(id))
    ensures VersionsOk(Do(w, Lock(id)))
  {
    var w' := Do(w, Lock(id));
    if w'.requested != w'.version {
      var other :| other in w.requesters && w.requesters[other].Committed? && w.requesters[other].version == w.version;
      assert w'.requesters[other].version == w'.version;
    }
  }

  lemma SendKeepsVersions(w: World, id: nat)
    requires VersionsOk(w) && Enabled(w, Send(id))
    ensures VersionsOk(Do(w, Send(id)))
  {
    var w' := Do(w, Send(id));
    if w'.requested != w'.version {
      var other :| other in w.requesters && w.requesters[other].Committed? && w.requesters[other].version == w.version;
      assert w'.requesters[other].version == w'.version;
    }
  }

  lemma OthersKeepVersions(w: World, s: Step)
    requires VersionsOk(w) && Enabled(w, s) && !s.Mutate? && !s.Lock? && !s.Send?
    ensures VersionsOk(Do(w, s))
  {
    hide VersionsOk;
    var w' := Do(w, s);
    assert w'.requested == w.requested && w'.version == w.version && w'.requesters == w.requesters;
    SameVersions(w, w');
  }

  lemma SameVersions(w: World, w': World)
    requires VersionsOk(w) && w'.requested == w.requested && w'.version == w.version && w'.requesters == w.requesters
    ensures VersionsOk(w')
  {
  }

  lemma CoverKept(w: World, s: Step)
    requires Inv(w) && Enabled(w, s)
    ensures Covered(Do(w, s))
  {
    hide NoLostWakeup, DeferralOk;
  }

  lemma SlotKept(w: World, s: Step)
    requires Inv(w) && Enabled(w, s)
    ensures SlotOk(Do(w, s)) && w.lastOk <= Do(w, s).lastOk
  {
    hide NoLostWakeup, Covered, VersionsOk, DeferralOk;
  }

  lemma DeferralKept(w: World, s: Step)
    requires Inv(w) && Enabled(w, s)
    ensures DeferralOk(Do(w, s))
    ensures Do(w, s).worker.Gate? ==> Do(w, s).configured
    ensures !Do(w, s).worker.Parked? ==> Do(w, s).started
  {
    hide NoLostWakeup, Covered, VersionsOk, SlotOk;
  }

  lemma StepKeepsInv(w: World, s: Step)
    requires Inv(w) && Enabled(w, s)
    ensures Inv(Do(w, s)) && w.lastOk <= Do(w, s).lastOk
  {
    hide Do, Enabled, NoLostWakeup, Covered, SlotOk, VersionsOk, DeferralOk;
    WakeupKept(w, s);
    VersionsKept(w, s);
    CoverKept(w, s);
    SlotKept(w, s);
    DeferralKept(w, s);
  }

  lemma {:induction false} RunKeepsInv(w: World, steps: seq<Step>)
    requires Inv(w) && Runs(w, steps)
    ensures Inv(After(w, steps)) && w.lastOk <= After(w, steps).lastOk
    decreases |steps|
  {
    hide Do, Enabled, Inv;
    if steps != [] {
      StepKeepsInv(w, steps[0]);
      RunKeepsInv(Do(w, steps[0]), steps[1..]);
    }
  }

  lemma ReachableInv(w: World)
    requires Reachable(w)
    ensures Inv(w)
  {
    var w0, steps :| Init(w0) && Runs(w0, steps) && After(w0, steps) == w;
    InitInv(w0);
    RunKeepsInv(w0, steps);
  }

  // ---------------------------------------------------------------- no edit is lost

  /** No request is in flight, no wake token is pending and the worker is parked. */
  ghost predicate AtRest(w: World) {
    w.requesters == map[] && !w.wake && w.worker.Parked?
  }

  /**
   With a generator configured, whenever the coordinator is at rest the last pass
   that returned without error read its options after every stored mutation.
   */
  lemma NoEditLost(w: World)
    requires Reachable(w) && w.configured && AtRest(w)
    ensures w.lastOk == w.version
  {
    ReachableInv(w);
  }

  // ---------------------------------------------------------------- every edit can still be covered

  /** No new mutation, no new job and no failure. */
  ghost predicate Quietly(s: Step) {
    match s
    case Mutate(_, _) | ManualClaim | OtherClaim | FindBusy | ReadOptions(false) | Render(false) => false
    case _ => true
  }

  /** The steps lead to a state whose options were all read by the last good pass. */
  ghost predicate Settles(w: World, steps: seq<Step>) {
    (forall k :: 0 <= k < |steps| ==> Quietly(steps[k])) && Runs(w, steps) &&
    After(w, steps).lastOk == After(w, steps).version == w.version
  }

  lemma SettlesAfter(w: World, s: Step, rest: seq<Step>)
    requires Enabled(w, s) && Quietly(s) && Settles(Do(w, s), rest) && Do(w, s).version == w.version
    ensures Settles(w, [s] + rest)
  {
    hide Do, Enabled, Quietly;
    assert ([s] + rest)[1..] == rest;
  }

  /** How far another slot holder, then the requests, then the worker are from an up-to-date pass. */
  ghost function HolderRank(w: World): nat {
    if w.slot.ByManual? || w.slot.ByManualReading? || w.slot.ByOther? then 1 else 0
  }

  ghost function WorkerRank(w: World): nat {
    match w.worker
    case Rendering(_, _, read) => if read == w.version then 1 else 14
    case Generating(_, _) => 2
    case Attempt(_, _) => 3
    case Quieted => 4
    case Gate => 5
    case Claimed => 6
    case Woken => 7
    case Parked | Waiting => 8
    case Ending | Dropping => 9
    case WritingRow => 10
    case Deferring => 11
    case Failing(_, _, _) => 12
    case Finished => 13
  }

  ghost function TicksLeft(w: World): nat {
    if w.c.Quiet(w.now) then 0 else w.c.lastRequestAt + WINDOW - w.now
  }

  /** The worker's next step towards such a pass. */
  ghost function NextWorkerStep(w: World): Step {
    match w.worker
    case Parked => WakeUp
    case Woken => TestDirty
    case Claimed => TestConfigured
    case Dropping => Drop
    case Gate => if w.c.Quiet(w.now) then PollGate else Tick
    case Quieted => TakeOrigins
    case Attempt(_, _) => ClaimSlot
    case Generating(_, _) => ReadOptions(true)
    case Rendering(_, _, _) => Render(true)
    case Finished => RecordComplete
    case Failing(_, _, _) => Requeue
    case Deferring => MarkDeferred
    case WritingRow => WriteRow
    case Ending => EndPass
    case Waiting => BackoffElapsed
  }

  /** With no request in flight and no other slot holder, the worker alone makes progress. */
  lemma WorkerProgresses(w: World)
    requires Inv(w) && w.configured && w.lastOk < w.version && w.requesters == map[] && HolderRank(w) == 0
    ensures var s := NextWorkerStep(w);
      Enabled(w, s) && Quietly(s) && Do(w, s).requesters == map[] && Do(w, s).configured &&
      Do(w, s).version == w.version && HolderRank(Do(w, s)) == 0 &&
      (Do(w, s).lastOk == w.version || WorkerRank(Do(w, s)) < WorkerRank(w) ||
       (WorkerRank(Do(w, s)) == WorkerRank(w) && TicksLeft(Do(w, s)) < TicksLeft(w)))
  {
    assert w.requested == w.version;
    assert w.c.dirty ==> w.started && (w.wake || WillRetest(w));
  }

  /** The worker drives itself to an up-to-date pass. */
  lemma {:induction false} WorkerSettles(w: World) returns (steps: seq<Step>)
    requires Inv(w) && w.configured && w.requesters == map[] && HolderRank(w) == 0
    ensures Settles(w, steps)
    decreases w.version - w.lastOk, WorkerRank(w), TicksLeft(w)
  {
    hide Do, Enabled, NextWorkerStep, WorkerRank, TicksLeft, HolderRank, Quietly;
    if w.lastOk == w.version {
      steps := [];
    } else {
      hide Inv;
      var s := NextWorkerStep(w);
      InvBounds(w);
      WorkerProgresses(w);
      StepKeepsInv(w, s);
      InvBounds(Do(w, s));
      var rest := WorkerSettles(Do(w, s));
      SettlesAfter(w, s, rest);
      steps := [s] + rest;
    }
  }

  lemma InvBounds(w: World)
    requires Inv(w)
    ensures w.lastOk <= w.version
  {
  }

  /** First every request in flight is delivered. */
  lemma {:induction false} RequestsSettle(w: World) returns (steps: seq<Step>)
    requires Inv(w) && w.configured && HolderRank(w) == 0
    ensures Settles(w, steps)
    decreases |w.requesters|
  {
    hide Inv, Settles;
    if w.requesters == map[] {
      steps := WorkerSettles(w);
    } else {
      var id :| id in w.requesters;
      var locked := w;
      if w.requesters[id].Committed? {
        StepKeepsInv(w, Lock(id));
        locked := Do(w, Lock(id));
      }
      StepKeepsInv(locked, Send(id));
      assert |locked.requesters.Keys| == |w.requesters.Keys| by {
        assert locked.requesters.Keys == w.requesters.Keys;
      }
      assert (locked.requesters - {id}).Keys == locked.requesters.Keys - {id};
      var rest := RequestsSettle(Do(locked, Send(id)));
      SettlesAfter(locked, Send(id), rest);
      steps := [Send(id)] + rest;
      if w.requesters[id].Committed? {
        SettlesAfter(w, Lock(id), steps);
        steps := [Lock(id)] + steps;
      }
    }
  }

  /**
   No edit is ever stuck: from every reachable state with a generator configured, some finite
   run in which nothing new arrives and nothing fails ends with every stored mutation covered.
   */
  lemma OutstandingWorkCanProceed(w: World)
    requires Reachable(w) && w.configured
    ensures exists steps :: Settles(w, steps)
  {
    hide Settles, Inv;
    ReachableInv(w);
    if HolderRank(w) == 0 {
      var steps := RequestsSettle(w);
    } else {
      var s := if w.slot.ByManual? then ManualRead(true) else if w.slot.ByManualReading? then ManualRender(true)
        else OtherRelease;
      StepKeepsInv(w, s);
      var w' := Do(w, s);
      var rest: seq<Step>;
      if s == ManualRead(true) {
        StepKeepsInv(w', ManualRender(true));
        rest := RequestsSettle(Do(w', ManualRender(true)));
        SettlesAfter(w', ManualRender(true), rest);
        rest := [ManualRender(true)] + rest;
      } else {
        rest := RequestsSettle(w');
      }
      SettlesAfter(w, s, rest);
    }
  }

  // ---------------------------------------------------------------- deferral rows

  /** A deferral row was written and no generation completed since. */
  ghost predicate RowWritten(w: World) {
    w.c.deferredRow && !w.worker.Deferring? && !w.worker.WritingRow?
  }

  lemma RowStaysWritten(w: World, s: Step)
    requires Inv(w) && Enabled(w, s) && RowWritten(w) && !s.RecordComplete?
    ensures RowWritten(Do(w, s)) && !s.WriteRow?
  {
    DeferralKept(w, s);
  }

  lemma {:induction false} NoSecondRow(w: World, steps: seq<Step>, j: nat)
    requires Inv(w) && Runs(w, steps) && RowWritten(w) && j < |steps| && steps[j].WriteRow?
    ensures exists k :: 0 <= k < j && steps[k].RecordComplete?
    decreases |steps|
  {
    var s := steps[0];
    if s.RecordComplete? {
      assert steps[0].RecordComplete? && j > 0;
    } else {
      StepKeepsInv(w, s);
      RowStaysWritten(w, s);
      hide Do, Enabled, Inv, RowWritten;
      NoSecondRow(Do(w, s), steps[1..], j - 1);
      var k :| 0 <= k < j - 1 && steps[1..][k].RecordComplete?;
      assert steps[k + 1].RecordComplete?;
    }
  }

  /** In any run, two deferral rows have a completed automatic generation between them. */
  lemma {:induction false} RowsSeparatedByGeneration(w: World, steps: seq<Step>, i: nat, j: nat)
    requires Inv(w) && Runs(w, steps) && i < j < |steps| && steps[i].WriteRow? && steps[j].WriteRow?
    ensures exists k :: i < k < j && steps[k].RecordComplete?
    decreases |steps|
  {
    StepKeepsInv(w, steps[0]);
    var rest := steps[1..];
    if i == 0 {
      NoSecondRow(Do(w, steps[0]), rest, j - 1);
      var k :| 0 <= k < j - 1 && rest[k].RecordComplete?;
      assert steps[k + 1].RecordComplete?;
    } else {
      RowsSeparatedByGeneration(Do(w, steps[0]), rest, i - 1, j - 1);
      var k :| i - 1 < k < j - 1 && rest[k].RecordComplete?;
      assert steps[k + 1].RecordComplete?;
    }
  }

  // ---------------------------------------------------------------- burst coalescing

  ghost function Generations(steps: seq<Step>): nat {
    if steps == [] then 0 else (if steps[0].RecordComplete? then 1 else 0) + Generations(steps[1..])
  }

  ghost predicate HasRequest(steps: seq<Step>) {
    exists k :: 0 <= k < |steps| && steps[k].Lock?
  }

  /** By the run's clock every request comes less than the window after the one before; last: when that came. */
  ghost predicate Burst(w: World, steps: seq<Step>, last: Option<nat>)
    requires Runs(w, steps)
    decreases |steps|
  {
    steps != [] ==>
      (steps[0].Lock? && last.Some? ==> w.now < last.value + WINDOW) &&
      Burst(Do(w, steps[0]), steps[1..], if steps[0].Lock? then Some(w.now) else last)
  }

  ghost predicate InPass(w: World) {
    match w.worker
    case Claimed | Gate | Quieted | Attempt(_, _) | Generating(_, _) | Rendering(_, _, _) => true
    case Finished | Failing(_, _, _) => true
    case _ => false
  }

  /** Generations still owed when no further request arrives. */
  ghost function Owed(w: World): nat {
    (if w.c.dirty then 1 else 0) + (if InPass(w) then 1 else 0)
  }

  lemma OwedStep(w: World, s: Step)
    requires Enabled(w, s) && !s.Lock?
    ensures Owed(Do(w, s)) + (if s.RecordComplete? then 1 else 0) <= Owed(w)
  {
  }

  lemma {:induction false} OwedBoundsGenerations(w: World, steps: seq<Step>)
    requires Runs(w, steps) && !HasRequest(steps)
    ensures Generations(steps) <= Owed(w)
    decreases |steps|
  {
    hide Do, Enabled, Owed;
    if steps != [] {
      OwedStep(w, steps[0]);
      assert forall k :: 0 <= k < |steps[1..]| ==> steps[1..][k] == steps[k + 1];
      OwedBoundsGenerations(Do(w, steps[0]), steps[1..]);
    }
  }

  ghost predicate BeforeGate(w: World) {
    w.worker.Parked? || w.worker.Woken? || w.worker.Claimed? || w.worker.Gate? || w.worker.Dropping?
  }

  /** While a further request of the burst is still to come, the window since the last one is not over. */
  lemma {:induction false} GateShutDuringBurst(w: World, steps: seq<Step>, last: nat)
    requires Runs(w, steps) && Burst(w, steps, Some(last)) && HasRequest(steps)
    ensures w.now < last + WINDOW
    decreases |steps|
  {
    if !steps[0].Lock? {
      var k :| 0 <= k < |steps| && steps[k].Lock?;
      assert steps[1..][k - 1].Lock?;
      GateShutDuringBurst(Do(w, steps[0]), steps[1..], last);
    }
  }

  lemma {:induction false} BurstBound(w: World, steps: seq<Step>, last: Option<nat>)
    requires Runs(w, steps) && Burst(w, steps, last) && BeforeGate(w)
    requires last.None? ==> !w.c.dirty && (w.worker.Parked? || w.worker.Woken?)
    requires last.Some? ==> w.c.lastRequestAt == last.value
    ensures Generations(steps) <= 2
    decreases |steps|
  {
    if !HasRequest(steps) {
      OwedBoundsGenerations(w, steps);
    } else {
      if last.Some? {
        GateShutDuringBurst(w, steps, last.value);
      }
      BurstBound(Do(w, steps[0]), steps[1..], if steps[0].Lock? then Some(w.now) else last);
    }
  }

  /** A burst that finds the worker parked and the coordinator clean costs at most two generations. */
  lemma BurstCostsAtMostTwo(w: World, steps: seq<Step>)
    requires Runs(w, steps) && Burst(w, steps, None)
    requires w.worker.Parked? && !w.c.dirty
    ensures Generations(steps) <= 2
  {
    BurstBound(w, steps, None);
  }
}
