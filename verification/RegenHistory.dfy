module RegenHistory {
  // What the coordinator's guarded fields say about the run so far: the quiet gate, the
  // pass flag, the deferral flag and the origins, each against the steps taken.

  import opened Regen

  /** The state after the first k steps. */
  ghost function StateAt(w: World, steps: seq<Step>, k: nat): World
    requires Runs(w, steps) && k <= |steps|
    decreases k
  {
    if k == 0 then w else StateAt(Do(w, steps[0]), steps[1..], k - 1)
  }

  lemma {:induction false} NextState(w: World, steps: seq<Step>, k: nat)
    requires Runs(w, steps) && k < |steps|
    ensures Enabled(StateAt(w, steps, k), steps[k])
    ensures StateAt(w, steps, k + 1) == Do(StateAt(w, steps, k), steps[k])
    decreases k
  {
    hide Do, Enabled;
    if k > 0 {
      NextState(Do(w, steps[0]), steps[1..], k - 1);
    }
  }

  lemma {:induction false} StateInv(w: World, steps: seq<Step>, k: nat)
    requires Runs(w, steps) && k <= |steps| && Inv(w)
    ensures Inv(StateAt(w, steps, k))
  {
    hide Inv, Do, Enabled;
    if k > 0 {
      StateInv(w, steps, k - 1);
      NextState(w, steps, k - 1);
      StepKeepsInv(StateAt(w, steps, k - 1), steps[k - 1]);
    }
  }

  lemma StampStep(w: World, s: Step)
    requires Enabled(w, s)
    ensures Do(w, s).c.lastRequestAt == if s.Lock? then w.now else w.c.lastRequestAt
  {
  }

  lemma DeferredStep(w: World, s: Step)
    requires Enabled(w, s)
    ensures Do(w, s).c.deferredRow == (s.MarkDeferred? || (w.c.deferredRow && !s.RecordComplete?))
  {
  }

  ghost predicate EndsPass(s: Step) { s.Drop? || s.RecordComplete? || s.EndPass? }

  lemma PassFlagStep(w: World, s: Step)
    requires Enabled(w, s)
    ensures Do(w, s).c.passActive == (!EndsPass(s) && (w.c.passActive || (s.TestDirty? && w.c.dirty)))
  {
  }

  lemma OutsideStep(w: World, s: Step)
    requires Enabled(w, s)
    ensures EndsPass(s) ==> OutsidePass(Do(w, s))
    ensures s.TestDirty? ==> OutsidePass(w) && (OutsidePass(Do(w, s)) <==> !w.c.dirty)
    ensures !EndsPass(s) && !s.TestDirty? ==> (OutsidePass(Do(w, s)) <==> OutsidePass(w))
  {
  }

  lemma PassStep(w: World, s: Step)
    requires Enabled(w, s) && (w.c.passActive <==> !OutsidePass(w))
    ensures Do(w, s).c.passActive <==> !OutsidePass(Do(w, s))
  {
    PassFlagStep(w, s);
    OutsideStep(w, s);
    hide Do, Enabled;
  }

  ghost predicate OutsidePass(w: World) { w.worker.Parked? || w.worker.Woken? || w.worker.Waiting? }

  // ---------------------------------------------------------------- the quiet gate

  /** No request passes its locked part from step i on, before step k. */
  ghost predicate NoRequest(steps: seq<Step>, i: nat, k: nat)
    requires k <= |steps|
  {
    forall m :: i <= m < k ==> !steps[m].Lock?
  }

  lemma {:induction false} StampIsLastRequest(w: World, steps: seq<Step>, i: nat, k: nat)
    requires Runs(w, steps) && i < k <= |steps| && steps[i].Lock? && NoRequest(steps, i + 1, k)
    ensures StateAt(w, steps, k).c.lastRequestAt == StateAt(w, steps, i).now
  {
    hide Do, Enabled;
    NextState(w, steps, k - 1);
    StampStep(StateAt(w, steps, k - 1), steps[k - 1]);
    if k > i + 1 {
      StampIsLastRequest(w, steps, i, k - 1);
    }
  }

  /** A poll of the gate passes exactly when the window has passed, by the run's clock, since the last request. */
  lemma GatePassesExactly(w: World, steps: seq<Step>, i: nat, k: nat)
    requires Runs(w, steps) && i < k < |steps| && steps[i].Lock? && NoRequest(steps, i + 1, k)
    requires steps[k].PollGate?
    ensures StateAt(w, steps, k + 1).worker.Quieted? <==>
      StateAt(w, steps, i).now + WINDOW <= StateAt(w, steps, k).now
  {
    StampIsLastRequest(w, steps, i, k);
    NextState(w, steps, k);
  }

  // ---------------------------------------------------------------- the pass flag

  lemma {:induction false} PassFlagAt(w: World, steps: seq<Step>, k: nat)
    requires Init(w) && Runs(w, steps) && k <= |steps|
    ensures StateAt(w, steps, k).c.passActive <==> !OutsidePass(StateAt(w, steps, k))
  {
    if k > 0 {
      hide Do, Enabled, Init;
      PassFlagAt(w, steps, k - 1);
      NextState(w, steps, k - 1);
      PassStep(StateAt(w, steps, k - 1), steps[k - 1]);
    }
  }

  /**
   The pass flag is set exactly from the claim of the dirty flag until the pass is ended, and
   whoever sees neither flag sees a tree in which everything requested is rendered.
   */
  lemma PassFlagExactly(w: World, steps: seq<Step>, k: nat)
    requires Init(w) && Runs(w, steps) && k <= |steps|
    ensures var s := StateAt(w, steps, k);
      (s.c.passActive <==> !OutsidePass(s)) &&
      (s.configured && !s.c.dirty && !s.c.passActive ==> s.requested <= s.lastOk)
  {
    InitInv(w);
    StateInv(w, steps, k);
    PassFlagAt(w, steps, k);
  }

  // ---------------------------------------------------------------- deferral rows

  /** A deferral was marked and no automatic generation completed since. */
  ghost predicate DeferredSince(steps: seq<Step>, k: nat)
    requires k <= |steps|
  {
    exists i :: 0 <= i < k && steps[i].MarkDeferred? && forall m :: i < m < k ==> !steps[m].RecordComplete?
  }

  lemma {:induction false} DeferredFlagAt(w: World, steps: seq<Step>, k: nat)
    requires Init(w) && Runs(w, steps) && k <= |steps|
    ensures StateAt(w, steps, k).c.deferredRow <==> DeferredSince(steps, k)
  {
    if k > 0 {
      hide Do, Enabled, Init, DeferredSince;
      DeferredFlagAt(w, steps, k - 1);
      NextState(w, steps, k - 1);
      DeferredStep(StateAt(w, steps, k - 1), steps[k - 1]);
      DeferredGrows(steps, k - 1);
    }
  }

  lemma DeferredGrows(steps: seq<Step>, k: nat)
    requires k < |steps|
    ensures DeferredSince(steps, k + 1) <==>
      steps[k].MarkDeferred? || (DeferredSince(steps, k) && !steps[k].RecordComplete?)
  {
    if steps[k].MarkDeferred? {
      assert DeferredSince(steps, k + 1);
    }
    if i :| 0 <= i < k && steps[i].MarkDeferred? && forall m :: i < m < k ==> !steps[m].RecordComplete? {
      assert !steps[k].RecordComplete? ==> DeferredSince(steps, k + 1);
    }
  }

  /** An attempt that found the slot busy gets a row exactly when none was written since a generation completed. */
  lemma RowWrittenExactly(w: World, steps: seq<Step>, k: nat)
    requires Init(w) && Runs(w, steps) && k < |steps| && steps[k].Requeue?
    ensures var s := StateAt(w, steps, k);
      s.worker.Failing? &&
      (StateAt(w, steps, k + 1).worker.Deferring? <==> s.worker.busy && !DeferredSince(steps, k))
  {
    InitInv(w);
    StateInv(w, steps, k);
    DeferredFlagAt(w, steps, k);
    NextState(w, steps, k);
  }

  // ---------------------------------------------------------------- origins

  /** Step i is the locked part of a request of this origin. */
  ghost predicate RequestsFor(w: World, steps: seq<Step>, i: nat, o: Origin)
    requires Runs(w, steps) && i < |steps|
  {
    var s := StateAt(w, steps, i);
    steps[i].Lock? && steps[i].id in s.requesters && s.requesters[steps[i].id].Committed? &&
    s.requesters[steps[i].id].origin == o
  }

  ghost predicate TakenSince(steps: seq<Step>, i: nat, k: nat)
    requires k <= |steps|
  {
    exists a :: i < a < k && steps[a].TakeOrigins?
  }

  /** After step i origins were taken and then a generation returned without error. */
  ghost predicate CoveredSince(steps: seq<Step>, i: nat, k: nat)
    requires k <= |steps|
  {
    exists b :: i < b < k && steps[b] == Render(true) && TakenSince(steps, i, b)
  }

  ghost predicate InAttempt(w: World) {
    w.worker.Attempt? || w.worker.Generating? || w.worker.Rendering? || w.worker.Failing?
  }

  ghost function Carried(w: World): set<Origin> { if InAttempt(w) then w.worker.origins else {} }

  ghost predicate Awaits(w: World, steps: seq<Step>, k: nat, o: Origin)
    requires Runs(w, steps) && k <= |steps|
  {
    exists i: nat :: i < k && RequestsFor(w, steps, i, o) && !CoveredSince(steps, i, k)
  }

  ghost predicate Untaken(w: World, steps: seq<Step>, k: nat, o: Origin)
    requires Runs(w, steps) && k <= |steps|
  {
    exists i: nat :: i < k && RequestsFor(w, steps, i, o) && !TakenSince(steps, i, k)
  }

  lemma TakenStep(steps: seq<Step>, i: nat, k: nat)
    requires i < k < |steps|
    ensures TakenSince(steps, i, k + 1) <==> TakenSince(steps, i, k) || steps[k].TakeOrigins?
    ensures CoveredSince(steps, i, k + 1) <==>
      CoveredSince(steps, i, k) || (steps[k] == Render(true) && TakenSince(steps, i, k))
  {
    hide TakenSince;
    assert TakenSince(steps, i, k + 1) <==> TakenSince(steps, i, k) || steps[k].TakeOrigins? by {
      TakenGrows(steps, i, k);
    }
  }

  lemma TakenGrows(steps: seq<Step>, i: nat, k: nat)
    requires i < k < |steps|
    ensures TakenSince(steps, i, k + 1) <==> TakenSince(steps, i, k) || steps[k].TakeOrigins?
  {
  }

  lemma NotYet(steps: seq<Step>, k: nat)
    requires k < |steps|
    ensures !TakenSince(steps, k, k + 1) && !CoveredSince(steps, k, k + 1)
  {
  }

  lemma CoveredWasTaken(steps: seq<Step>, i: nat, k: nat)
    requires k <= |steps| && CoveredSince(steps, i, k)
    ensures TakenSince(steps, i, k)
  {
    var b :| i < b < k && steps[b] == Render(true) && TakenSince(steps, i, b);
    var a :| i < a < b && steps[a].TakeOrigins?;
  }

  /** What is untaken or awaited after one more step. */
  lemma AwaitsStep(w: World, steps: seq<Step>, k: nat, o: Origin)
    requires Runs(w, steps) && k < |steps|
    ensures Untaken(w, steps, k + 1, o) <==>
      RequestsFor(w, steps, k, o) || (Untaken(w, steps, k, o) && !steps[k].TakeOrigins?)
    ensures Awaits(w, steps, k + 1, o) <==>
      RequestsFor(w, steps, k, o) ||
      if steps[k] == Render(true) then Untaken(w, steps, k, o) else Awaits(w, steps, k, o)
  {
    UntakenStep(w, steps, k, o);
    hide RequestsFor, TakenSince, CoveredSince;
    NotYet(steps, k);
    forall i: nat | i < k
      ensures CoveredSince(steps, i, k + 1) <==>
        CoveredSince(steps, i, k) || (steps[k] == Render(true) && TakenSince(steps, i, k))
      ensures CoveredSince(steps, i, k) ==> TakenSince(steps, i, k)
    {
      TakenStep(steps, i, k);
      if CoveredSince(steps, i, k) {
        CoveredWasTaken(steps, i, k);
      }
    }
    assert RequestsFor(w, steps, k, o) ==> Awaits(w, steps, k + 1, o);
    if i: nat :| i < k && RequestsFor(w, steps, i, o) && !TakenSince(steps, i, k) {
      assert !CoveredSince(steps, i, k + 1);
    }
    if i: nat :| i < k && RequestsFor(w, steps, i, o) && !CoveredSince(steps, i, k) {
      assert steps[k] != Render(true) ==> !CoveredSince(steps, i, k + 1);
    }
  }

  lemma UntakenStep(w: World, steps: seq<Step>, k: nat, o: Origin)
    requires Runs(w, steps) && k < |steps|
    ensures Untaken(w, steps, k + 1, o) <==>
      RequestsFor(w, steps, k, o) || (Untaken(w, steps, k, o) && !steps[k].TakeOrigins?)
  {
    hide RequestsFor, TakenSince;
    assert !TakenSince(steps, k, k + 1) by {
      NotYet(steps, k);
    }
    assert RequestsFor(w, steps, k, o) ==> Untaken(w, steps, k + 1, o);
    forall i: nat | i < k
      ensures TakenSince(steps, i, k + 1) <==> TakenSince(steps, i, k) || steps[k].TakeOrigins?
    {
      TakenGrows(steps, i, k);
    }
    if i: nat :| i < k && RequestsFor(w, steps, i, o) && !TakenSince(steps, i, k) {
      assert !steps[k].TakeOrigins? ==> !TakenSince(steps, i, k + 1);
    }
    if i: nat :| i < k + 1 && RequestsFor(w, steps, i, o) && !TakenSince(steps, i, k + 1) {
      assert i < k ==> !TakenSince(steps, i, k) && !steps[k].TakeOrigins?;
    }
  }

  ghost predicate OriginsRight(w: World, steps: seq<Step>, k: nat, o: Origin)
    requires Runs(w, steps) && k <= |steps|
  {
    var s := StateAt(w, steps, k);
    (o in s.c.origins + Carried(s) <==> Awaits(w, steps, k, o)) &&
    (InAttempt(s) ==> (o in s.c.origins <==> Untaken(w, steps, k, o)))
  }

  ghost predicate Asks(w: World, s: Step, o: Origin)
    requires Enabled(w, s)
  {
    s.Lock? && w.requesters[s.id].origin == o
  }

  /** What one step does to the origins recorded and to those carried. */
  lemma OriginsMove(w: World, s: Step, o: Origin)
    requires Enabled(w, s)
    ensures var t := Do(w, s);
      o in t.c.origins <==>
        Asks(w, s, o) || (o in w.c.origins && !s.TakeOrigins?) || (s.Requeue? && o in w.worker.origins)
  {
  }

  lemma CarriedMove(w: World, s: Step)
    requires Enabled(w, s)
    ensures s.TakeOrigins? ==> !InAttempt(w) && Carried(Do(w, s)) == w.c.origins
    ensures s.Requeue? ==> InAttempt(w) && Carried(w) == w.worker.origins && !InAttempt(Do(w, s))
    ensures s == Render(true) ==> InAttempt(w) && !InAttempt(Do(w, s))
    ensures !s.TakeOrigins? && !s.Requeue? && s != Render(true) ==>
      Carried(Do(w, s)) == Carried(w) && (InAttempt(Do(w, s)) <==> InAttempt(w))
  {
  }

  /** One step of the coordinator moves one origin as the history says. */
  lemma OriginsStep(s: World, step: Step, o: Origin, awaits: bool, untaken: bool)
    requires Enabled(s, step) && (o in s.c.origins + Carried(s) <==> awaits)
    requires InAttempt(s) ==> (o in s.c.origins <==> untaken)
    ensures var t := Do(s, step);
      (o in t.c.origins + Carried(t) <==> Asks(s, step, o) || if step == Render(true) then untaken else awaits) &&
      (InAttempt(t) ==> (o in t.c.origins <==> Asks(s, step, o) || (!step.TakeOrigins? && untaken)))
  {
    OriginsMove(s, step, o);
    CarriedMove(s, step);
    hide Do, Enabled;
  }

  lemma {:induction false} OriginsAt(w: World, steps: seq<Step>, k: nat, o: Origin)
    requires Init(w) && Runs(w, steps) && k <= |steps|
    ensures OriginsRight(w, steps, k, o)
  {
    if k > 0 {
      hide Do, Awaits, Untaken, Carried, InAttempt;
      OriginsAt(w, steps, k - 1, o);
      NextState(w, steps, k - 1);
      AwaitsStep(w, steps, k - 1, o);
      OriginsStep(StateAt(w, steps, k - 1), steps[k - 1], o, Awaits(w, steps, k - 1, o), Untaken(w, steps, k - 1, o));
    }
  }

  /**
   No origin is lost or invented: one is recorded, in the coordinator or with the pass under
   way, exactly while some request of it awaits a generation that took origins after it.
   */
  lemma OriginsExactly(w: World, steps: seq<Step>, k: nat, o: Origin)
    requires Init(w) && Runs(w, steps) && k <= |steps|
    ensures o in StateAt(w, steps, k).c.origins + Carried(StateAt(w, steps, k)) <==> Awaits(w, steps, k, o)
  {
    hide Awaits, Untaken, Carried;
    OriginsAt(w, steps, k, o);
  }
}
