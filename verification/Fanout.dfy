module Fanout {
  // Snapshot fan-out of a nom-web session (pkgs/nom-web/session.go): every subscriber
  // has a channel of capacity one, and a broadcast replaces a snapshot nobody read yet.
  //
  // Channel and Session give each call's effect when nothing runs beside it; World
  // interleaves the reader goroutine, any number of subscribers and their receivers,
  // one step per locked region or channel operation.

  import opened Options

  /** A snapshot: the number of events applied, and whether the session was finished. */
  datatype Snap = Snap(version: nat, finished: bool)

  predicate AtMost(a: Snap, b: Snap) {
    a.version <= b.version && (a.finished ==> b.finished)
  }

  // ---------------------------------------------------------------- one call at a time

  class Channel {
    var buffer: Option<Snap>

    constructor ()
      ensures buffer == None
    {
      buffer := None;
    }

    /** select { case ch <- snap: default: } */
    method TrySend(snap: Snap) returns (sent: bool)
      modifies this
      ensures sent == old(buffer).None? && buffer == if sent then Some(snap) else old(buffer)
    {
      sent := buffer.None?;
      if sent {
        buffer := Some(snap);
      }
    }

    method TryReceive() returns (snap: Option<Snap>)
      modifies this
      ensures snap == old(buffer) && buffer == None
    {
      snap := buffer;
      buffer := None;
    }
  }

  class Session {
    var version: nat
    var done: bool
    var subs: set<Channel>

    constructor ()
      ensures version == 0 && !done && subs == {}
    {
      version, done, subs := 0, false, {};
    }

    method Subscribe() returns (ch: Channel)
      modifies this
      ensures fresh(ch) && subs == old(subs) + {ch} && version == old(version) && done == old(done)
      ensures ch.buffer == Some(Snap(version, done))
    {
      ch := new Channel();
      subs := subs + {ch};
      var _ := ch.TrySend(Snap(version, done));
    }

    method Unsubscribe(ch: Channel)
      modifies this
      ensures subs == old(subs) - {ch} && version == old(version) && done == old(done)
    {
      subs := subs - {ch};
    }

    /** Undisturbed, a broadcast leaves the newest snapshot in every channel, read or not. */
    method Broadcast()
      modifies subs
      ensures forall ch :: ch in subs ==> ch.buffer == Some(Snap(version, done))
    {
      var snap := Snap(version, done);
      var todo := subs;
      while todo != {}
        invariant todo <= subs
        invariant forall ch :: ch in subs - todo ==> ch.buffer == Some(snap)
        decreases |todo|
      {
        var ch :| ch in todo;
        var sent := ch.TrySend(snap);
        if !sent {
          var _ := ch.TryReceive();
          var _ := ch.TrySend(snap);
        }
        todo := todo - {ch};
      }
    }
  }

  // ---------------------------------------------------------------- interleavings

  /**
   priming: taken under the lock in subscribe, not sent yet. sent and lost describe the
   last broadcast that finished with this channel; late: registered after done was set.
   */
  datatype Sub = Sub(priming: Option<Snap>, chan: Option<Snap>, received: Option<Snap>,
                     sent: Option<Snap>, lost: bool, late: bool)

  /** Where the reader goroutine is in broadcast. From Sending on it holds the session lock. */
  datatype Reader =
    | Idle
    | Holding(snap: Snap)
    | Sending(snap: Snap, todo: set<nat>)
    | Draining(snap: Snap, todo: set<nat>, id: nat)
    | Resending(snap: Snap, todo: set<nat>, id: nat, landed: Option<Snap>) // landed: a priming send since the drain

  datatype World = World(version: nat, done: bool, subs: map<nat, Sub>, reader: Reader)

  datatype Step =
    | ApplyEvent
    | MarkDone
    | TakeSnapshot
    | LockSubs
    | Send(id: nat)
    | Drain
    | Resend
    | Unlock
    | Register(id: nat)
    | Prime(id: nat)
    | Receive(id: nat)
    | Unregister(id: nat)

  ghost predicate LockFree(w: World) { w.reader.Idle? || w.reader.Holding? }

  ghost predicate Enabled(w: World, s: Step) {
    match s
    case ApplyEvent => w.reader.Idle? && !w.done
    case MarkDone => w.reader.Idle? && !w.done
    case TakeSnapshot => w.reader.Idle?
    case LockSubs => w.reader.Holding?
    case Send(id) => w.reader.Sending? && id in w.reader.todo && id in w.subs
    case Drain => w.reader.Draining? && w.reader.id in w.subs
    case Resend => w.reader.Resending? && w.reader.id in w.subs
    case Unlock => w.reader.Sending? && w.reader.todo == {}
    case Register(id) => LockFree(w) && id !in w.subs
    case Prime(id) => id in w.subs && w.subs[id].priming.Some?
    case Receive(id) => id in w.subs && w.subs[id].priming.None? && w.subs[id].chan.Some?
    case Unregister(id) => LockFree(w) && id in w.subs && w.subs[id].priming.None?
  }

  ghost function With(w: World, id: nat, sub: Sub): World {
    w.(subs := w.subs[id := sub])
  }

  ghost function Do(w: World, s: Step): World
    requires Enabled(w, s)
  {
    match s
    case ApplyEvent => w.(version := w.version + 1)
    case MarkDone => w.(done := true)
    case TakeSnapshot => w.(reader := Holding(Snap(w.version, w.done)))
    case LockSubs => w.(reader := Sending(w.reader.snap, w.subs.Keys))
    case Send(id) =>
      var sub, snap := w.subs[id], w.reader.snap;
      if sub.chan.None?
      then With(w, id, sub.(chan := Some(snap), sent := Some(snap), lost := false)).(
        reader := Sending(snap, w.reader.todo - {id}))
      else w.(reader := Draining(snap, w.reader.todo - {id}, id))
    case Drain =>
      With(w, w.reader.id, w.subs[w.reader.id].(chan := None)).(
        reader := Resending(w.reader.snap, w.reader.todo, w.reader.id, None))
    case Resend =>
      var sub, snap := w.subs[w.reader.id], w.reader.snap;
      var after := if sub.chan.None? then sub.(chan := Some(snap), sent := Some(snap), lost := false)
                   else sub.(sent := Some(snap), lost := true);
      With(w, w.reader.id, after).(reader := Sending(snap, w.reader.todo))
    case Unlock => w.(reader := Idle)
    case Register(id) =>
      With(w, id, Sub(Some(Snap(w.version, w.done)), None, None, None, false, w.done))
    case Prime(id) =>
      var sub := w.subs[id];
      if sub.chan.Some? then With(w, id, sub.(priming := None))
      else
        var r := if w.reader.Resending? && w.reader.id == id then w.reader.(landed := sub.priming) else w.reader;
        With(w, id, sub.(priming := None, chan := sub.priming)).(reader := r)
    case Receive(id) => With(w, id, w.subs[id].(chan := None, received := w.subs[id].chan))
    case Unregister(id) => w.(subs := w.subs - {id})
  }

  const START := World(0, false, map[], Idle)

  ghost predicate Runs(w: World, steps: seq<Step>)
    decreases |steps|
  {
    steps == [] || (Enabled(w, steps[0]) && Runs(Do(w, steps[0]), steps[1..]))
  }

  ghost function After(w: World, steps: seq<Step>): World
    requires Runs(w, steps)
    decreases |steps|
  {
    if steps == [] then w else After(Do(w, steps[0]), steps[1..])
  }

  ghost predicate Reachable(w: World) {
    exists steps :: Runs(START, steps) && After(START, steps) == w
  }

  // ---------------------------------------------------------------- invariant

  /** What a subscriber has: the snapshot in its channel, else the one it received last. */
  function Newest(sub: Sub): Option<Snap> { if sub.chan.Some? then sub.chan else sub.received }

  ghost predicate Below(s: Option<Snap>, top: Snap) { s.Some? ==> AtMost(s.value, top) }

  ghost predicate HasFinished(sub: Sub) { Newest(sub).Some? && Newest(sub).value.finished }

  ghost predicate Ordered(a: Option<Snap>, b: Option<Snap>) { a.Some? && b.Some? ==> AtMost(a.value, b.value) }

  ghost function Now(w: World): Snap { Snap(w.version, w.done) }

  /** The channel the reader is between draining and sending again. */
  ghost predicate Replacing(w: World, id: nat) {
    (w.reader.Draining? || w.reader.Resending?) && w.reader.id == id
  }

  /** Nothing in a channel or read from it is newer than the present, and readers only ever move forward. */
  ghost predicate InOrder(w: World, sub: Sub) {
    Below(sub.priming, Now(w)) && Below(sub.chan, Now(w)) && Below(sub.sent, Now(w)) && Below(sub.received, Now(w)) &&
    Ordered(sub.received, sub.chan) && (sub.priming.Some? ==> sub.received.None?)
  }

  /** The last broadcast that finished with the channel is in it, or is what was received last. */
  ghost predicate HasNewest(w: World, id: nat, sub: Sub) {
    sub.sent.Some? && !Replacing(w, id) ==> sub.sent == Newest(sub)
  }

  /** The last broadcast is in the channel or was received, unless a priming send took its place. */
  ghost predicate NewestKept(w: World, id: nat, sub: Sub) {
    !sub.lost ==> HasNewest(w, id, sub)
  }

  /** A subscriber that came after done is only ever given finished snapshots, and one is there once it is primed. */
  ghost predicate LateIsFinished(w: World, id: nat, sub: Sub) {
    sub.late ==> (
      w.done && (sub.priming.Some? ==> sub.priming.value.finished) &&
      (sub.chan.Some? ==> sub.chan.value.finished) && (sub.received.Some? ==> sub.received.value.finished) &&
      (sub.priming.None? && !Replacing(w, id) ==> sub.chan.Some? || sub.received.Some?))
  }

  ghost predicate SubOk(w: World, id: nat, sub: Sub) {
    InOrder(w, sub) && NewestKept(w, id, sub) && LateIsFinished(w, id, sub)
  }

  ghost predicate ReaderOk(w: World) {
    match w.reader
    case Idle => true
    case Holding(snap) => snap == Now(w)
    case Sending(snap, todo) => snap == Now(w) && todo <= w.subs.Keys
    case Draining(snap, todo, id) => snap == Now(w) && todo <= w.subs.Keys && id in w.subs && id !in todo
    case Resending(snap, todo, id, landed) =>
      snap == Now(w) && todo <= w.subs.Keys && id in w.subs && id !in todo &&
      (landed.None? ==> w.subs[id].chan.None?) &&
      (landed.Some? ==> w.subs[id].chan == landed || (w.subs[id].chan.None? && w.subs[id].received == landed)) &&
      (w.subs[id].priming.Some? ==> landed.None?)
  }

  ghost predicate Inv(w: World) {
    ReaderOk(w) && forall id :: id in w.subs ==> SubOk(w, id, w.subs[id])
  }

  lemma ReaderKept(w: World, s: Step)
    requires Inv(w) && Enabled(w, s)
    ensures ReaderOk(Do(w, s))
  {
    hide InOrder, NewestKept, LateIsFinished;
  }

  /** The subscriber a step acts on, if any. */
  ghost function Subject(w: World, s: Step): Option<nat>
    requires Enabled(w, s)
  {
    match s
    case Send(id) => Some(id)
    case Drain => Some(w.reader.id)
    case Resend => Some(w.reader.id)
    case Register(id) => Some(id)
    case Prime(id) => Some(id)
    case Receive(id) => Some(id)
    case Unregister(id) => Some(id)
    case _ => None
  }

  lemma OthersKept(w: World, s: Step, id: nat)
    requires Inv(w) && Enabled(w, s) && id in Do(w, s).subs && Subject(w, s) != Some(id)
    ensures SubOk(Do(w, s), id, Do(w, s).subs[id])
  {
    assert SubOk(w, id, w.subs[id]);
  }

  lemma ReplacementKept(w: World, s: Step)
    requires Inv(w) && Enabled(w, s) && (s.Send? || s.Drain? || s.Resend?)
    ensures var id := Subject(w, s).value; id in Do(w, s).subs && SubOk(Do(w, s), id, Do(w, s).subs[id])
  {
    assert SubOk(w, Subject(w, s).value, w.subs[Subject(w, s).value]);
  }

  lemma SubscriberKept(w: World, s: Step)
    requires Inv(w) && Enabled(w, s) && (s.Register? || s.Prime? || s.Receive?)
    ensures var id := Subject(w, s).value; id in Do(w, s).subs && SubOk(Do(w, s), id, Do(w, s).subs[id])
  {
    if !s.Register? {
      assert SubOk(w, Subject(w, s).value, w.subs[Subject(w, s).value]);
    }
  }

  lemma StepKeepsInv(w: World, s: Step)
    requires Inv(w) && Enabled(w, s)
    ensures Inv(Do(w, s))
  {
    ReaderKept(w, s);
    if s.Send? || s.Drain? || s.Resend? {
      ReplacementKept(w, s);
    }
    if s.Register? || s.Prime? || s.Receive? {
      SubscriberKept(w, s);
    }
    hide SubOk, ReaderOk;
    forall id | id in Do(w, s).subs
      ensures SubOk(Do(w, s), id, Do(w, s).subs[id])
    {
      if Subject(w, s) != Some(id) {
        OthersKept(w, s, id);
      }
    }
  }

  lemma {:induction false} RunKeepsInv(w: World, steps: seq<Step>)
    requires Inv(w) && Runs(w, steps)
    ensures Inv(After(w, steps))
    decreases |steps|
  {
    hide Do, Enabled, Inv;
    if steps != [] {
      StepKeepsInv(w, steps[0]);
      RunKeepsInv(Do(w, steps[0]), steps[1..]);
    }
  }

  lemma ReachableInv(w: World)
    requires Reachable(w)
    ensures Inv(w)
  {
    var steps :| Runs(START, steps) && After(START, steps) == w;
    RunKeepsInv(START, steps);
  }

  // ---------------------------------------------------------------- delivery

  /** A priming send landed, still unread, between the drain and the second send. */
  ghost predicate TookItsPlace(w: World, s: Step)
    requires Enabled(w, s)
  {
    s.Resend? && w.reader.landed.Some? && w.subs[w.reader.id].chan == w.reader.landed
  }

  /**
   A broadcast that reaches a channel leaves its snapshot there exactly when no priming
   send of another snapshot took its place.
   */
  lemma BroadcastDelivers(w: World, s: Step)
    requires Reachable(w) && Enabled(w, s) && (s.Resend? || (s.Send? && w.subs[s.id].chan.None?))
    ensures var sub := Do(w, s).subs[Subject(w, s).value];
      sub.sent == Some(Now(w)) && (sub.lost <==> TookItsPlace(w, s)) &&
      (sub.chan == sub.sent <==> !(TookItsPlace(w, s) && w.reader.landed != Some(Now(w))))
  {
    ReachableInv(w);
  }

  /** A priming send is outstanding or has just disturbed the broadcast in progress. */
  ghost predicate Unsettled(w: World, id: nat)
    requires id in w.subs
  {
    w.subs[id].priming.Some? || (w.reader.Resending? && w.reader.id == id && w.reader.landed.Some?)
  }

  /** A broadcast finishes with this channel: it sends into the empty channel, or sends for the second time. */
  ghost predicate Finishes(w: World, s: Step, id: nat)
    requires Enabled(w, s)
  {
    (s == Send(id) && w.subs[id].chan.None?) || (s.Resend? && w.reader.id == id)
  }

  ghost predicate EverFinishes(w: World, steps: seq<Step>, id: nat)
    requires Runs(w, steps)
    decreases |steps|
  {
    steps != [] && (Finishes(w, steps[0], id) || EverFinishes(Do(w, steps[0]), steps[1..], id))
  }

  lemma SettledStaysSettled(w: World, s: Step, id: nat)
    requires Inv(w) && Enabled(w, s) && s != Unregister(id) && id in w.subs && !Unsettled(w, id)
    ensures id in Do(w, s).subs && !Unsettled(Do(w, s), id)
    ensures Do(w, s).subs[id].lost <==> w.subs[id].lost && !Finishes(w, s, id)
    ensures Do(w, s).subs[id].sent == if Finishes(w, s, id) then Some(Now(w)) else w.subs[id].sent
  {
    hide SubOk;
  }

  /**
   Once a subscriber's priming send has returned, no broadcast is lost to it any more: from
   the first one that finishes with its channel on, or at once if none was lost before, the
   newest is in the channel or was received last, however slowly the channel is read.
   */
  lemma {:induction false} SettledNeverLoses(w: World, steps: seq<Step>, id: nat)
    requires Inv(w) && Runs(w, steps) && Unregister(id) !in steps
    requires id in w.subs && !Unsettled(w, id)
    ensures id in After(w, steps).subs && !Unsettled(After(w, steps), id)
    ensures After(w, steps).subs[id].lost <==> w.subs[id].lost && !EverFinishes(w, steps, id)
    ensures !w.subs[id].lost || EverFinishes(w, steps, id) ==> HasNewest(After(w, steps), id, After(w, steps).subs[id])
    decreases |steps|
  {
    hide Do, Enabled, Unsettled, Finishes;
    if steps == [] {
      assert SubOk(w, id, w.subs[id]);
    } else {
      hide Inv, HasNewest;
      SettledStaysSettled(w, steps[0], id);
      StepKeepsInv(w, steps[0]);
      SettledNeverLoses(Do(w, steps[0]), steps[1..], id);
    }
  }

  /** The broadcast of a finished snapshot that the reader holds is still to come for this channel, or was delivered. */
  ghost predicate FinishedComing(w: World, id: nat)
    requires id in w.subs
  {
    w.done && (
      w.reader.Holding? || (!w.reader.Idle? && id in w.reader.todo) || Replacing(w, id) ||
      (!w.subs[id].lost && w.subs[id].sent.Some? && w.subs[id].sent.value.finished))
  }

  lemma FinishedStaysComing(w: World, s: Step, id: nat)
    requires Inv(w) && Enabled(w, s) && s != Unregister(id) && id in w.subs && !Unsettled(w, id) &&
      FinishedComing(w, id)
    ensures id in Do(w, s).subs && !Unsettled(Do(w, s), id) && FinishedComing(Do(w, s), id)
  {
    hide SubOk;
    SettledStaysSettled(w, s, id);
  }

  /**
   A settled subscriber gets the finished snapshot: when the reader goroutine is through
   with its broadcast, a finished snapshot is in the channel or was received last, whatever
   was lost before and however slowly the channel is read.
   */
  lemma {:induction false} FinishedReachesSettled(w: World, steps: seq<Step>, id: nat)
    requires Inv(w) && w.done && id in w.subs && !Unsettled(w, id) && FinishedComing(w, id)
    requires Runs(w, steps) && Unregister(id) !in steps && After(w, steps).reader.Idle?
    ensures id in After(w, steps).subs
    ensures HasFinished(After(w, steps).subs[id])
    decreases |steps|
  {
    hide Do, Enabled, Unsettled;
    if steps == [] {
      assert SubOk(w, id, w.subs[id]);
    } else {
      hide Inv, FinishedComing;
      FinishedStaysComing(w, steps[0], id);
      StepKeepsInv(w, steps[0]);
      FinishedReachesSettled(Do(w, steps[0]), steps[1..], id);
    }
  }

  /** A subscriber that registers after the session is done always has a finished snapshot, unread or read. */
  lemma LateSubscriberGetsFinished(w: World, id: nat)
    requires Reachable(w) && id in w.subs && w.subs[id].late && w.subs[id].priming.None? && !Replacing(w, id)
    ensures HasFinished(w.subs[id])
  {
    ReachableInv(w);
    assert SubOk(w, id, w.subs[id]);
  }

  /** What a subscriber receives never goes back in time. */
  lemma ReceivedMovesForward(w: World, id: nat)
    requires Reachable(w) && Enabled(w, Receive(id))
    ensures Ordered(w.subs[id].received, Do(w, Receive(id)).subs[id].received)
  {
    ReachableInv(w);
    assert SubOk(w, id, w.subs[id]);
  }

  // ---------------------------------------------------------------- who ends without a finished snapshot

  /**
   A priming send is finished exactly for a subscriber that came after done, and after a
   loss it is what the channel holds or what was received last.
   */
  ghost predicate PrimedOk(w: World, id: nat)
    requires id in w.subs
  {
    var sub := w.subs[id];
    (sub.priming.Some? ==> (sub.priming.value.finished <==> sub.late)) &&
    (w.reader.Resending? && w.reader.id == id && w.reader.landed.Some? ==>
      (w.reader.landed.value.finished <==> sub.late)) &&
    (sub.lost ==> sub.priming.None?) &&
    (sub.lost && !Replacing(w, id) ==> Newest(sub).Some? && (Newest(sub).value.finished <==> sub.late))
  }

  ghost predicate AllPrimed(w: World) { forall id :: id in w.subs ==> PrimedOk(w, id) }

  lemma PrimedKept(w: World, s: Step, id: nat)
    requires Inv(w) && Enabled(w, s) && id in Do(w, s).subs && (id in w.subs ==> PrimedOk(w, id))
    ensures PrimedOk(Do(w, s), id)
  {
    hide SubOk;
  }

  lemma OneStepPrimed(w: World, s: Step)
    requires Inv(w) && AllPrimed(w) && Enabled(w, s)
    ensures Inv(Do(w, s)) && AllPrimed(Do(w, s))
  {
    hide Do, Enabled, Inv, PrimedOk;
    StepKeepsInv(w, s);
    forall id | id in Do(w, s).subs
      ensures PrimedOk(Do(w, s), id)
    {
      PrimedKept(w, s, id);
    }
  }

  lemma {:induction false} RunKeepsPrimed(w: World, steps: seq<Step>)
    requires Inv(w) && AllPrimed(w) && Runs(w, steps)
    ensures Inv(After(w, steps)) && AllPrimed(After(w, steps))
    decreases |steps|
  {
    hide Do, Enabled, Inv, PrimedOk;
    if steps != [] {
      OneStepPrimed(w, steps[0]);
      RunKeepsPrimed(Do(w, steps[0]), steps[1..]);
    }
  }

  lemma ReachablePrimed(w: World)
    requires Reachable(w)
    ensures Inv(w) && AllPrimed(w)
  {
    var steps :| Runs(START, steps) && After(START, steps) == w;
    RunKeepsPrimed(START, steps);
  }

  lemma HasFinishedExactly(w: World, id: nat)
    requires Inv(w) && AllPrimed(w) && id in w.subs && !Replacing(w, id)
    requires w.subs[id].sent.Some? && w.subs[id].sent.value.finished
    ensures HasFinished(w.subs[id]) <==> !w.subs[id].lost || w.subs[id].late
  {
    assert SubOk(w, id, w.subs[id]) && PrimedOk(w, id);
  }

  /**
   A subscriber whose last finished broadcast was a finished snapshot has one, unread or
   received last, if and only if that broadcast was not lost to it or it came after done.
   */
  lemma FinishedExactly(w: World, id: nat)
    requires Reachable(w) && id in w.subs && !Replacing(w, id)
    requires w.subs[id].sent.Some? && w.subs[id].sent.value.finished
    ensures HasFinished(w.subs[id]) <==> !w.subs[id].lost || w.subs[id].late
  {
    ReachablePrimed(w);
    HasFinishedExactly(w, id);
  }

  lemma {:induction false} UnfinishedKeepsLoss(w: World, steps: seq<Step>, id: nat)
    requires Runs(w, steps) && Unregister(id) !in steps && id in w.subs && !EverFinishes(w, steps, id)
    ensures id in After(w, steps).subs
    ensures var a, b := w.subs[id], After(w, steps).subs[id]; b.sent == a.sent && b.lost == a.lost && b.late == a.late
    decreases |steps|
  {
    if steps != [] {
      UnfinishedKeepsLoss(Do(w, steps[0]), steps[1..], id);
    }
  }

  /**
   From the last broadcast of a finished snapshot that finishes with its channel on, a
   subscriber has a finished snapshot if and only if it came after done or no priming send
   took that broadcast's place.
   */
  lemma LastBroadcastExactly(w: World, s: Step, steps: seq<Step>, id: nat)
    requires Reachable(w) && w.done && id in w.subs && Enabled(w, s) && Finishes(w, s, id)
    requires Runs(Do(w, s), steps) && Unregister(id) !in steps && !EverFinishes(Do(w, s), steps, id)
    ensures var t := After(Do(w, s), steps);
      id in t.subs && (!Replacing(t, id) ==> (HasFinished(t.subs[id]) <==> w.subs[id].late || !TookItsPlace(w, s)))
  {
    hide After, Runs, EverFinishes, AllPrimed, SubOk;
    ReachablePrimed(w);
    BroadcastDelivers(w, s);
    OneStepPrimed(w, s);
    UnfinishedKeepsLoss(Do(w, s), steps, id);
    RunKeepsPrimed(Do(w, s), steps);
    var t := After(Do(w, s), steps);
    if !Replacing(t, id) {
      HasFinishedExactly(t, id);
    }
  }

  // ---------------------------------------------------------------- the disturbed broadcast

  lemma OneStep(w0: World, steps: seq<Step>, w: World, s: Step)
    requires Runs(w0, steps) && After(w0, steps) == w && Enabled(w, s)
    ensures Runs(w0, steps + [s]) && After(w0, steps + [s]) == Do(w, s)
    decreases |steps|
  {
    if steps == [] {
      assert steps + [s] == [s] && [s][1..] == [];
    } else {
      assert (steps + [s])[1..] == steps[1..] + [s];
      OneStep(Do(w0, steps[0]), steps[1..], w, s);
    }
  }

  /**
   The last broadcast can be lost: a subscriber whose priming send lands between the
   drain and the second send of the final broadcast is left with an unfinished snapshot.
   */
  lemma FinishedCanBeLost() returns (steps: seq<Step>)
    ensures Runs(START, steps)
    ensures var w := After(START, steps);
      w.done && w.reader.Idle? && 0 in w.subs && w.subs[0].priming.None? &&
      w.subs[0].sent == Some(Snap(0, true)) && w.subs[0].chan == Some(Snap(0, false)) && w.subs[0].received.None?
  {
    steps := [];
    NoSteps(START);
    for k := 0 to 13
      invariant Runs(START, steps) && After(START, steps) == Scripted(k)
    {
      hide Runs, After, Scripted, Script;
      ScriptedStep(k);
      OneStep(START, steps, Scripted(k), Script(k));
      steps := steps + [Script(k)];
    }
  }

  function Script(k: nat): Step {
    if k == 0 then Register(0)
    else if k == 1 || k == 6 then TakeSnapshot
    else if k == 2 || k == 7 then LockSubs
    else if k == 3 || k == 8 then Send(0)
    else if k == 4 || k == 12 then Unlock
    else if k == 5 then MarkDone
    else if k == 9 then Drain
    else if k == 10 then Prime(0)
    else Resend
  }

  lemma ScriptedStep(k: nat)
    requires k < 13
    ensures Enabled(Scripted(k), Script(k)) && Do(Scripted(k), Script(k)) == Scripted(k + 1)
  {
    assert {0} - {0} == {};
    var w := Scripted(k);
    if 0 < k {
      assert w.subs.Keys == {0};
      assert w.subs[0 := Scripted(k + 1).subs[0]] == Scripted(k + 1).subs;
    } else {
      assert w.subs[0 := Scripted(1).subs[0]] == Scripted(1).subs;
    }
  }

  lemma NoSteps(w: World)
    ensures Runs(w, []) && After(w, []) == w
  {
  }

  /** The worlds of that run. */
  ghost function Scripted(k: nat): World {
    var old0 := Some(Snap(0, false));
    var fresh0 := Sub(old0, None, None, None, false, false);
    var full := fresh0.(chan := old0, sent := old0);
    var snap := Snap(0, true);
    var missed := full.(priming := None, sent := Some(snap), lost := true);
    if k == 0 then START
    else if k == 1 then World(0, false, map[0 := fresh0], Idle)
    else if k == 2 then World(0, false, map[0 := fresh0], Holding(Snap(0, false)))
    else if k == 3 then World(0, false, map[0 := fresh0], Sending(Snap(0, false), {0}))
    else if k == 4 then World(0, false, map[0 := full], Sending(Snap(0, false), {}))
    else if k == 5 then World(0, false, map[0 := full], Idle)
    else if k == 6 then World(0, true, map[0 := full], Idle)
    else if k == 7 then World(0, true, map[0 := full], Holding(snap))
    else if k == 8 then World(0, true, map[0 := full], Sending(snap, {0}))
    else if k == 9 then World(0, true, map[0 := full], Draining(snap, {}, 0))
    else if k == 10 then World(0, true, map[0 := full.(chan := None)], Resending(snap, {}, 0, None))
    else if k == 11 then World(0, true, map[0 := full.(priming := None)], Resending(snap, {}, 0, old0))
    else if k == 12 then World(0, true, map[0 := missed], Sending(snap, {}))
    else World(0, true, map[0 := missed], Idle)
  }
}
