module NixHistory {
  // The state against the events it was built from: every total a snapshot shows is a
  // sum over all activities ever started, and a derivation shows as done exactly when
  // a build of it has stopped and nothing attached to it is active.

  import opened Options
  import opened Text
  import opened Lines
  import opened Sums
  import opened NixState
  import opened NixLaws
  import StorePath

  /** The state after the first n events. */
  ghost function After(evs: seq<Event>, n: nat): (s: State)
    requires n <= |evs|
    ensures Bounded(s)
  {
    if n == 0 then EMPTY else Step(After(evs, n - 1), evs[n - 1])
  }

  /** Where the activity that holds id after n events was started, if one does. */
  ghost function Begun(evs: seq<Event>, n: nat, id: Id): (k: Option<nat>)
    requires n <= |evs|
    ensures k.Some? ==> k.value < n && evs[k.value].action == "start" && evs[k.value].id == id
  {
    if n == 0 then None
    else if evs[n - 1].id == id && evs[n - 1].action == "start" then Some(n - 1)
    else if evs[n - 1].id == id && evs[n - 1].action == "stop" then None
    else Begun(evs, n - 1, id)
  }

  /** No event starts an id whose activity has not stopped. */
  ghost predicate FreshIds(evs: seq<Event>) {
    forall n :: 0 <= n < |evs| && evs[n].action == "start" ==> Begun(evs, n, evs[n].id).None?
  }

  ghost predicate IsProgress(e: Event) { e.action == "result" && e.typ == PROGRESS }

  function Reading(fields: seq<Field>, c: Counter): Word {
    match c
    case Done => UintOr0(fields, 0)
    case Expected => UintOr0(fields, 1)
    case Running => UintOr0(fields, 2)
    case Failed => UintOr0(fields, 3)
  }

  /** What the activity started at k reported last, before it stopped, within n events. */
  ghost function Reported(evs: seq<Event>, n: nat, k: nat, c: Counter): Word
    requires k < n <= |evs|
    decreases n
  {
    if n == k + 1 then 0
    else
      var e := evs[n - 1];
      if IsProgress(e) && Begun(evs, n - 1, e.id) == Some(k) then Reading(e.fields, c)
      else Reported(evs, n - 1, k, c)
  }

  ghost predicate StartsType(e: Event, t: int) { e.action == "start" && e.typ == t }

  /** The last reports of the activities of type t started within the first m of n events. */
  ghost function TotalReported(evs: seq<Event>, n: nat, t: int, c: Counter, m: nat): int
    requires m <= n <= |evs|
    decreases m
  {
    if m == 0 then 0
    else TotalReported(evs, n, t, c, m - 1) + if StartsType(evs[m - 1], t) then Reported(evs, n, m - 1, c) else 0
  }

  // ---------------------------------------------------------------- activities against their starts

  ghost predicate NodeIsBuilt(s: State, a: Activity, e: Event) {
    a.typ == BUILD ==>
      match FieldStr(e.fields, 0)
      case None => a.node == -1
      case Some(path) => 0 <= a.node < |s.drvs| && s.drvs[a.node] == StorePath.Base(path)
  }

  /** The activity with this id is the one its start event describes, with its last report. */
  ghost predicate Matches(evs: seq<Event>, n: nat, s: State, id: Id)
    requires n <= |evs|
  {
    match Begun(evs, n, id)
    case None => id !in s.activities
    case Some(k) =>
      id in s.activities && s.activities[id].typ == evs[k].typ && NodeIsBuilt(s, s.activities[id], evs[k]) &&
      forall c :: Count(s.activities[id], c) == Reported(evs, n, k, c)
  }

  ghost predicate AllMatch(evs: seq<Event>, n: nat, s: State)
    requires n <= |evs|
  {
    forall id :: Matches(evs, n, s, id)
  }

  /** s' has at least the derivations of s, and its activity id differs at most in its expectations. */
  ghost predicate Keeps(s: State, s': State, id: Id) {
    s.drvs <= s'.drvs && (id in s'.activities <==> id in s.activities) &&
    (id in s.activities ==>
      s'.activities[id].typ == s.activities[id].typ && s'.activities[id].node == s.activities[id].node &&
      forall c :: Count(s'.activities[id], c) == Count(s.activities[id], c))
  }

  lemma KeptStillMatches(evs: seq<Event>, n: nat, s: State, s': State, id: Id)
    requires n < |evs| && Matches(evs, n, s, id) && Keeps(s, s', id)
    requires Begun(evs, n + 1, id) == Begun(evs, n, id)
    requires Begun(evs, n, id).Some? && IsProgress(evs[n]) ==> evs[n].id != id
    ensures Matches(evs, n + 1, s', id)
  {
    hide StorePath.Base, FieldStr;
    var k := Begun(evs, n, id);
    if k.Some? {
      forall c
        ensures Reported(evs, n + 1, k.value, c) == Reported(evs, n, k.value, c)
      {
        assert Begun(evs, n, evs[n].id) == k ==> evs[k.value].id == evs[n].id;
      }
    }
  }

  lemma MessageKeeps(s: State, msg: string, id: Id)
    requires Bounded(s)
    ensures Keeps(s, Message(s, msg), id)
  {
    hide TrimSpace, StorePath.NameWithoutDrv, StorePath.Base, Count;
  }

  lemma SetExpectedKeeps(s: State, of: Id, t: int, n: Word, id: Id)
    requires Bounded(s)
    ensures Keeps(s, SetExpected(s, of, t, n), id)
  {
    hide Plus, Minus;
  }

  /** Events about other ids leave an activity as it is. */
  lemma OthersKeep(s: State, e: Event, id: Id)
    requires Bounded(s) && e.id != id
    ensures Keeps(s, Step(s, e), id)
  {
    hide TrimSpace, StorePath.NameWithoutDrv, StorePath.Base, Retired, Released, UintOr0, Plus, Minus;
    hide Message, SetExpected, Count;
    MessageKeeps(s, e.msg, id);
    if e.action == "result" && e.typ == SET_EXPECTED && FieldUint(e.fields, 0).Some? && FieldUint(e.fields, 1).Some? {
      SetExpectedKeeps(s, e.id, Signed(FieldUint(e.fields, 0).value), FieldUint(e.fields, 1).value, id);
    }
    if e.action == "start" {
      StartKeepsOthers(s, e, id);
    }
  }

  lemma StartKeepsOthers(s: State, e: Event, id: Id)
    requires Bounded(s) && e.id != id
    ensures Keeps(s, Start(s, e), id)
  {
    hide StorePath.NameWithoutDrv, StorePath.Base, TransferTarget, Count;
  }

  /** A started activity is of the event's type, has reported nothing, and is attached as NodeIsBuilt says. */
  lemma StartedMatches(s: State, e: Event)
    requires Inv(s) && e.id !in s.activities
    ensures var r := Start(s, e);
      e.id in r.activities && r.activities[e.id].typ == e.typ && NodeIsBuilt(r, r.activities[e.id], e) &&
      forall c :: Count(r.activities[e.id], c) == 0
  {
    hide StorePath.Base, TransferTarget, Noted, DrvsIndexed, NamesIndexed, TracksRight, ActiveRight, ExpectedRight;
    var s1 := Started(s, e.id, e.typ);
    StartedKeepsInv(s, e.id, e.typ);
    var path := FieldStr(e.fields, 0);
    if path.Some? {
      NotedKeepsInv(s1, StorePath.Base(path.value));
      NotedAt(s1, StorePath.Base(path.value));
    }
  }

  lemma NotedAt(s: State, drv: Drv)
    requires Inv(s)
    ensures var r := Noted(s, drv); r.drvIndex[drv] < |r.drvs| && r.drvs[r.drvIndex[drv]] == drv
  {
    hide NamesIndexed, TracksRight, ActiveRight, ExpectedRight;
    NotedKeepsDrvs(s, drv);
  }

  lemma StepMatches(evs: seq<Event>, n: nat, s: State, id: Id)
    requires n < |evs| && FreshIds(evs) && Inv(s) && Matches(evs, n, s, id)
    ensures Matches(evs, n + 1, Step(s, evs[n]), id)
  {
    hide Inv, Start, Message, SetExpected, NodeIsBuilt, Retired, Released;
    var e := evs[n];
    InvBounded(s);
    if e.id != id {
      OthersKeep(s, e, id);
      KeptStillMatches(evs, n, s, Step(s, e), id);
    } else if e.action == "start" {
      StartedMatches(s, e);
    } else if e.action == "stop" {
    } else if IsProgress(e) {
      ProgressMatches(evs, n, s);
    } else {
      ResultKeeps(s, e, id);
      KeptStillMatches(evs, n, s, Step(s, e), id);
    }
  }

  lemma ResultKeeps(s: State, e: Event, id: Id)
    requires Bounded(s) && e.action != "start" && e.action != "stop" && !IsProgress(e)
    ensures Keeps(s, Step(s, e), id)
  {
    hide Message, SetExpected, Signed, Count;
    MessageKeeps(s, e.msg, id);
    if FieldUint(e.fields, 0).Some? && FieldUint(e.fields, 1).Some? {
      SetExpectedKeeps(s, e.id, Signed(FieldUint(e.fields, 0).value), FieldUint(e.fields, 1).value, id);
    }
  }

  lemma ProgressMatches(evs: seq<Event>, n: nat, s: State)
    requires n < |evs| && Bounded(s) && IsProgress(evs[n]) && Matches(evs, n, s, evs[n].id)
    ensures Matches(evs, n + 1, Progress(s, evs[n].id, evs[n].fields), evs[n].id)
  {
    hide UintOr0, StorePath.Base, FieldStr;
    var e := evs[n];
    var k := Begun(evs, n, e.id);
    if k.Some? {
      forall c
        ensures Count(Progress(s, e.id, e.fields).activities[e.id], c) == Reported(evs, n + 1, k.value, c)
      {
        assert Reported(evs, n + 1, k.value, c) == Reading(e.fields, c);
      }
    }
  }

  /** After any stream with fresh ids the invariants hold and every activity matches its start event. */
  lemma {:induction false} StreamKeepsInv(evs: seq<Event>, n: nat)
    requires n <= |evs| && FreshIds(evs)
    ensures Inv(After(evs, n)) && AllMatch(evs, n, After(evs, n))
  {
    hide Inv, Matches, Step;
    if n == 0 {
      EmptyInv();
      EmptyMatches(evs);
    } else {
      StreamKeepsInv(evs, n - 1);
      var s := After(evs, n - 1);
      FreshFromHistory(evs, n - 1, s);
      StepKeepsInv(s, evs[n - 1]);
      forall id
        ensures Matches(evs, n, After(evs, n), id)
      {
        assert Matches(evs, n - 1, s, id);
        StepMatches(evs, n - 1, s, id);
      }
    }
  }

  lemma EmptyMatches(evs: seq<Event>)
    ensures AllMatch(evs, 0, EMPTY)
  {
  }

  lemma FreshFromHistory(evs: seq<Event>, n: nat, s: State)
    requires n < |evs| && FreshIds(evs) && AllMatch(evs, n, s)
    ensures Fresh(s, evs[n])
  {
    assert Matches(evs, n, s, evs[n].id);
  }

  // ---------------------------------------------------------------- what a transfer is attached to

  /** The only derivation, among those known when the activity started, whose name its path carries. */
  ghost predicate AttachedTo(drvs: seq<Drv>, e: Event, node: int) {
    match FieldStr(e.fields, 0)
    case None => node == -1
    case Some(path) =>
      var name := StorePath.Name(path);
      if (e.typ == SUBSTITUTE || e.typ == COPY_PATH) && HasPrefix(path, STORE) && name != "" &&
        exists i: nat :: OnlyNamed(drvs, name, i)
      then node >= 0 && OnlyNamed(drvs, name, node)
      else node == -1
  }

  lemma StartAttaches(s: State, e: Event)
    requires Bounded(s) && NamesIndexed(s) && e.typ != BUILD
    ensures e.id in Start(s, e).activities && AttachedTo(s.drvs, e, Start(s, e).activities[e.id].node)
  {
    hide StorePath.Name, StorePath.NameWithoutDrv;
    var path := FieldStr(e.fields, 0);
    if path.Some? {
      var name := StorePath.Name(path.value);
      assert NameIndexed(s, name);
      assert name in s.nameIndex && s.nameIndex[name] == -1 ==> forall i: nat :: !OnlyNamed(s.drvs, name, i);
      assert name != "" && name !in s.nameIndex ==> forall i: nat :: !OnlyNamed(s.drvs, name, i);
    }
  }

  /** Once started, an activity stays attached to what it was attached to. */
  lemma {:induction false} NodeFromStart(evs: seq<Event>, n: nat, id: Id)
    requires n <= |evs| && FreshIds(evs) && Begun(evs, n, id).Some?
    ensures var k := Begun(evs, n, id).value;
      id in After(evs, n).activities && id in After(evs, k + 1).activities &&
      After(evs, n).activities[id].node == After(evs, k + 1).activities[id].node
  {
    hide Step, Inv, NodeIsBuilt, Reported;
    StreamKeepsInv(evs, n);
    assert Matches(evs, n, After(evs, n), id);
    if Begun(evs, n, id) != Some(n - 1) {
      NodeFromStart(evs, n - 1, id);
      NodeKept(After(evs, n - 1), evs[n - 1], id);
    }
  }

  lemma NodeKept(s: State, e: Event, id: Id)
    requires Bounded(s) && id in s.activities && id in Step(s, e).activities &&
      (e.id == id ==> e.action != "start" && e.action != "stop")
    ensures Step(s, e).activities[id].node == s.activities[id].node
  {
    hide Start, Stop, Message, SetExpected, UintOr0, Count;
    if e.id != id {
      OthersKeep(s, e, id);
    } else if !IsProgress(e) {
      ResultKeeps(s, e, id);
    }
  }

  lemma InvNames(s: State)
    requires Inv(s)
    ensures Bounded(s) && NamesIndexed(s)
  {
  }

  lemma AfterStart(evs: seq<Event>, k: nat)
    requires k < |evs| && evs[k].action == "start"
    ensures After(evs, k + 1) == Start(After(evs, k), evs[k])
  {
  }

  /**
   Each active activity that is no build is attached, for as long as it runs, to the only
   derivation of its name among those noted before it started, and to none if there was no such one.
   */
  lemma TransferAttachedExactly(evs: seq<Event>, n: nat, id: Id)
    requires n <= |evs| && FreshIds(evs) && Begun(evs, n, id).Some? && evs[Begun(evs, n, id).value].typ != BUILD
    ensures var k := Begun(evs, n, id).value;
      id in After(evs, n).activities && AttachedTo(After(evs, k).drvs, evs[k], After(evs, n).activities[id].node)
  {
    hide Step, Start, AttachedTo, Inv, NamesIndexed, AllMatch, FreshIds, Begun;
    var k := Begun(evs, n, id).value;
    StreamKeepsInv(evs, k);
    InvNames(After(evs, k));
    NodeFromStart(evs, n, id);
    StartAttaches(After(evs, k), evs[k]);
    AfterStart(evs, k);
  }

  // ---------------------------------------------------------------- totals

  /** The sum over the active activities of a type. */
  ghost function LiveSum(activities: map<Id, Activity>, t: int, c: Counter): int {
    SumOf(CountsIn(activities, ActiveOf(activities, t), c))
  }

  function CountIf(a: Activity, t: int, c: Counter): int {
    if a.typ == t then Count(a, c) else 0
  }

  lemma LiveWith(activities: map<Id, Activity>, id: Id, a: Activity, t: int, c: Counter)
    ensures LiveSum(activities[id := a], t, c) == LiveSum(activities - {id}, t, c) + CountIf(a, t, c)
  {
    hide SumOf;
    var rest := activities - {id};
    var before := CountsIn(rest, ActiveOf(rest, t), c);
    var with := activities[id := a];
    if a.typ == t {
      SumAdds(before, id, Count(a, c));
      assert before - {id} == before;
      assert CountsIn(with, ActiveOf(with, t), c) == before[id := Count(a, c)];
    } else {
      assert CountsIn(with, ActiveOf(with, t), c) == before;
    }
  }

  lemma LiveWithout(activities: map<Id, Activity>, id: Id, t: int, c: Counter)
    requires id in activities
    ensures LiveSum(activities, t, c) == LiveSum(activities - {id}, t, c) + CountIf(activities[id], t, c)
  {
    LiveWith(activities, id, activities[id], t, c);
    assert activities[id := activities[id]] == activities;
  }

  /** done and failed are the counters an activity leaves behind when it stops. */
  predicate Lasting(c: Counter) { c.Done? || c.Failed? }

  function LeftBehind(agg: TypeAgg, c: Counter): Word
    requires Lasting(c)
  {
    if c.Done? then agg.done else agg.failed
  }

  /** What aggregate adds up, before wrapping. */
  ghost function Shown(s: State, t: int, c: Counter): int
    requires Lasting(c)
  {
    LeftBehind(AggOf(s.byType, t), c) + LiveSum(s.activities, t, c)
  }

  /** By how much an event moves a total. */
  ghost function Delta(s: State, e: Event, t: int, c: Counter): int {
    if IsProgress(e) && e.id in s.activities && s.activities[e.id].typ == t
    then Reading(e.fields, c) - Count(s.activities[e.id], c) else 0
  }

  lemma StartShows(s: State, e: Event, t: int, c: Counter)
    requires Inv(s) && e.id !in s.activities && Lasting(c)
    ensures Shown(Start(s, e), t, c) == Shown(s, t, c)
  {
    hide Inv, LiveSum, Count, NodeIsBuilt;
    StartedMatches(s, e);
    InvBounded(s);
    StartTouches(s, e);
    var r := Start(s, e);
    LiveWith(s.activities, e.id, r.activities[e.id], t, c);
    assert s.activities - {e.id} == s.activities;
  }

  lemma StartTouches(s: State, e: Event)
    requires Bounded(s)
    ensures e.id in Start(s, e).activities &&
      Start(s, e).activities == s.activities[e.id := Start(s, e).activities[e.id]]
    ensures forall t :: AggOf(Start(s, e).byType, t).done == AggOf(s.byType, t).done
    ensures forall t :: AggOf(Start(s, e).byType, t).failed == AggOf(s.byType, t).failed
  {
    hide StorePath.Base, TransferTarget, Noted;
    var s1 := Started(s, e.id, e.typ);
    if FieldStr(e.fields, 0).Some? {
      NotedKeepsRest(s1, StorePath.Base(FieldStr(e.fields, 0).value));
    }
  }

  lemma WrapMoved(left: Word, live: int, n: Word)
    ensures Wrap(Plus(left, n) + live) == Wrap(left + (live + n))
  {
  }

  lemma StopShows(s: State, id: Id, t: int, c: Counter)
    requires Bounded(s) && Lasting(c)
    ensures Wrap(Shown(Stop(s, id), t, c)) == Wrap(Shown(s, t, c))
  {
    hide LiveSum, Retired, Released, Plus, Wrap, Minus;
    if id in s.activities {
      var a := s.activities[id];
      RetiredParts(s.byType, id, a, t);
      LiveWithout(s.activities, id, t, c);
      WrapMoved(LeftBehind(AggOf(s.byType, t), c), LiveSum(s.activities - {id}, t, c), Count(a, c));
    }
  }

  lemma ProgressShows(s: State, e: Event, t: int, c: Counter)
    requires Bounded(s) && Lasting(c) && IsProgress(e)
    ensures Shown(Progress(s, e.id, e.fields), t, c) == Shown(s, t, c) + Delta(s, e, t, c)
  {
    hide LiveSum, UintOr0;
    if e.id in s.activities {
      var r := Progress(s, e.id, e.fields);
      LiveWithout(s.activities, e.id, t, c);
      LiveWith(s.activities, e.id, r.activities[e.id], t, c);
    }
  }

  lemma SetExpectedShows(s: State, id: Id, u: int, n: Word, t: int, c: Counter)
    requires Bounded(s) && Lasting(c)
    ensures Shown(SetExpected(s, id, u, n), t, c) == Shown(s, t, c)
  {
    hide LiveSum, Plus, Minus;
    if id in s.activities {
      var r := SetExpected(s, id, u, n);
      LiveWithout(s.activities, id, t, c);
      LiveWith(s.activities, id, r.activities[id], t, c);
    }
  }

  lemma MessageShows(s: State, msg: string, t: int, c: Counter)
    requires Bounded(s) && Lasting(c)
    ensures Shown(Message(s, msg), t, c) == Shown(s, t, c)
  {
    hide LiveSum, TrimSpace, StorePath.Base, StorePath.NameWithoutDrv;
  }

  /** Only a progress report moves a total, by what it changes in its activity. */
  lemma StepShows(s: State, e: Event, t: int, c: Counter)
    requires Inv(s) && Fresh(s, e) && Lasting(c)
    ensures Wrap(Shown(Step(s, e), t, c)) == Wrap(Shown(s, t, c) + Delta(s, e, t, c))
  {
    hide Inv, Shown, Start, Stop, Progress, SetExpected, Message, Signed, Wrap;
    InvBounded(s);
    if e.action == "start" {
      StartShows(s, e, t, c);
    } else if e.action == "stop" {
      StopShows(s, e.id, t, c);
    } else if IsProgress(e) {
      ProgressShows(s, e, t, c);
    } else if e.action == "result" {
      if FieldUint(e.fields, 0).Some? && FieldUint(e.fields, 1).Some? {
        SetExpectedShows(s, e.id, Signed(FieldUint(e.fields, 0).value), FieldUint(e.fields, 1).value, t, c);
      }
    } else {
      MessageShows(s, e.msg, t, c);
    }
  }

  /** The same, read off the history. */
  ghost function HistoryDelta(evs: seq<Event>, n: nat, t: int, c: Counter, m: nat): int
    requires m <= n < |evs|
  {
    var k := Begun(evs, n, evs[n].id);
    if IsProgress(evs[n]) && k.Some? && k.value < m && evs[k.value].typ == t
    then Reading(evs[n].fields, c) - Reported(evs, n, k.value, c) else 0
  }

  lemma {:induction false} HistoryMoves(evs: seq<Event>, n: nat, t: int, c: Counter, m: nat)
    requires m <= n < |evs|
    ensures TotalReported(evs, n + 1, t, c, m) == TotalReported(evs, n, t, c, m) + HistoryDelta(evs, n, t, c, m)
  {
    if m > 0 {
      HistoryMoves(evs, n, t, c, m - 1);
    }
  }

  lemma DeltasAgree(evs: seq<Event>, n: nat, s: State, t: int, c: Counter)
    requires n < |evs| && Matches(evs, n, s, evs[n].id)
    ensures HistoryDelta(evs, n, t, c, n) == Delta(s, evs[n], t, c)
  {
    hide Reading, Count, NodeIsBuilt;
  }

  lemma WrapSum(a: int, b: int, d: int)
    requires Wrap(a) == Wrap(b)
    ensures Wrap(a + d) == Wrap(b + d)
  {
  }

  /** In every reachable state the totals are the sums of the last reports of all activities ever started. */
  lemma {:induction false} TotalsAreHistory(evs: seq<Event>, n: nat, t: int, c: Counter)
    requires n <= |evs| && FreshIds(evs) && Lasting(c)
    ensures Wrap(Shown(After(evs, n), t, c)) == Wrap(TotalReported(evs, n, t, c, n))
  {
    hide After, Wrap, Shown, TotalReported;
    if n == 0 {
      NothingShown(evs, t, c);
    } else {
      TotalsAreHistory(evs, n - 1, t, c);
      TotalsMoveTogether(evs, n - 1, t, c);
    }
  }

  lemma NothingShown(evs: seq<Event>, t: int, c: Counter)
    requires Lasting(c)
    ensures Shown(After(evs, 0), t, c) == TotalReported(evs, 0, t, c, 0)
  {
    assert CountsIn(EMPTY.activities, ActiveOf(EMPTY.activities, t), c) == map[];
  }

  lemma TotalsMoveTogether(evs: seq<Event>, n: nat, t: int, c: Counter)
    requires n < |evs| && FreshIds(evs) && Lasting(c)
    requires Wrap(Shown(After(evs, n), t, c)) == Wrap(TotalReported(evs, n, t, c, n))
    ensures Wrap(Shown(After(evs, n + 1), t, c)) == Wrap(TotalReported(evs, n + 1, t, c, n + 1))
  {
    hide Inv, Matches, Step, Shown, Wrap, TotalReported, HistoryDelta, Delta, FreshIds, Fresh;
    var s, e := After(evs, n), evs[n];
    StreamKeepsInv(evs, n);
    FreshFromHistory(evs, n, s);
    StepShows(s, e, t, c);
    HistoryMoves(evs, n, t, c, n);
    assert Matches(evs, n, s, e.id);
    DeltasAgree(evs, n, s, t, c);
    WrapSum(Shown(s, t, c), TotalReported(evs, n, t, c, n), Delta(s, e, t, c));
    NewestReportsNothing(evs, n + 1, t, c);
  }

  lemma NewestReportsNothing(evs: seq<Event>, n: nat, t: int, c: Counter)
    requires 0 < n <= |evs|
    ensures TotalReported(evs, n, t, c, n) == TotalReported(evs, n, t, c, n - 1)
  {
  }

  /** aggregate's done and failed are the sums of the last reported values over every activity ever started. */
  lemma AggregateIsHistory(evs: seq<Event>, n: nat, t: int, r: Totals)
    requires n <= |evs| && FreshIds(evs) && IsAggregate(After(evs, n), t, r)
    ensures r.done == Wrap(TotalReported(evs, n, t, Done, n)) && r.failed == Wrap(TotalReported(evs, n, t, Failed, n))
  {
    hide Step, Wrap, TotalReported, Matches, TracksRight, DrvsIndexed, NamesIndexed, ExpectedRight;
    StreamKeepsInv(evs, n);
    var s := After(evs, n);
    assert AggOf(s.byType, t).active == ActiveOf(s.activities, t);
    TotalsAreHistory(evs, n, t, Done);
    TotalsAreHistory(evs, n, t, Failed);
  }

  /** A stop never changes a total. */
  lemma StopChangesNoTotal(evs: seq<Event>, n: nat, t: int, before: Totals, after: Totals)
    requires n < |evs| && FreshIds(evs) && evs[n].action == "stop"
    requires IsAggregate(After(evs, n), t, before) && IsAggregate(After(evs, n + 1), t, after)
    ensures after.done == before.done && after.failed == before.failed
  {
    hide Step, Wrap, Reported, IsAggregate, After;
    AggregateIsHistory(evs, n, t, before);
    AggregateIsHistory(evs, n + 1, t, after);
    HistoryMoves(evs, n, t, Done, n);
    HistoryMoves(evs, n, t, Failed, n);
    NewestReportsNothing(evs, n + 1, t, Done);
    NewestReportsNothing(evs, n + 1, t, Failed);
  }

  // ---------------------------------------------------------------- what renders as done

  /** Event m stops a build of drv. */
  ghost predicate StopsBuildOf(evs: seq<Event>, m: nat, drv: Drv)
    requires m < |evs|
  {
    evs[m].action == "stop" &&
    match Begun(evs, m, evs[m].id)
    case None => false
    case Some(k) => evs[k].typ == BUILD && FieldStr(evs[k].fields, 0).Some? &&
                    StorePath.Base(FieldStr(evs[k].fields, 0).value) == drv
  }

  ghost predicate BuildStopped(evs: seq<Event>, n: nat, drv: Drv)
    requires n <= |evs|
  {
    exists m: nat :: m < n && StopsBuildOf(evs, m, drv)
  }

  ghost predicate DoneRight(evs: seq<Event>, n: nat, s: State)
    requires n <= |evs|
  {
    |s.track| == |s.drvs| && forall i: nat :: i < |s.track| ==> (s.track[i].done <==> BuildStopped(evs, n, s.drvs[i]))
  }

  lemma BuildStoppedStep(evs: seq<Event>, n: nat, drv: Drv)
    requires n < |evs|
    ensures BuildStopped(evs, n + 1, drv) <==> BuildStopped(evs, n, drv) || StopsBuildOf(evs, n, drv)
  {
    hide StopsBuildOf;
  }

  /** A build that stopped was registered when it started. */
  lemma {:induction false} StoppedIsNoted(evs: seq<Event>, n: nat, drv: Drv)
    requires n <= |evs| && FreshIds(evs) && BuildStopped(evs, n, drv)
    ensures drv in After(evs, n).drvs
  {
    hide Inv, Step, Matches, StopsBuildOf;
    BuildStoppedStep(evs, n - 1, drv);
    var s := After(evs, n - 1);
    StepKeepsDrvs(s, evs[n - 1]);
    if BuildStopped(evs, n - 1, drv) {
      StoppedIsNoted(evs, n - 1, drv);
    } else {
      StreamKeepsInv(evs, n - 1);
      assert Matches(evs, n - 1, s, evs[n - 1].id);
      BuiltIsNoted(evs, n - 1, s, drv);
    }
  }

  lemma BuiltIsNoted(evs: seq<Event>, n: nat, s: State, drv: Drv)
    requires n < |evs| && StopsBuildOf(evs, n, drv) && Matches(evs, n, s, evs[n].id)
    ensures evs[n].id in s.activities && drv in s.drvs
    ensures 0 <= s.activities[evs[n].id].node < |s.drvs| && s.drvs[s.activities[evs[n].id].node] == drv
    ensures s.activities[evs[n].id].typ == BUILD
  {
    hide StorePath.Base, FieldStr;
  }

  lemma StepKeepsDrvs(s: State, e: Event)
    requires Bounded(s)
    ensures s.drvs <= Step(s, e).drvs
  {
    hide Step;
    OthersKeep(s, e, e.id + 1);
  }

  lemma NonStopKeepsDone(s: State, e: Event)
    requires Bounded(s) && e.action != "stop"
    ensures SameDone(s, Step(s, e))
  {
    hide Start, Message, Result;
    StartKeepsDone(s, e);
    MessageKeepsDone(s, e.msg);
    ResultKeepsTrack(s, e);
  }

  /** No derivation's done flag changes, and new derivations are not done. */
  ghost predicate SameDone(s: State, r: State) {
    |s.track| <= |r.track| &&
    (forall i :: 0 <= i < |s.track| ==> r.track[i].done == s.track[i].done) &&
    forall i :: |s.track| <= i < |r.track| ==> !r.track[i].done
  }

  lemma StartKeepsDone(s: State, e: Event)
    requires Bounded(s)
    ensures SameDone(s, Start(s, e))
  {
    hide StorePath.Base, TransferTarget, Noted;
    var s1 := Started(s, e.id, e.typ);
    if FieldStr(e.fields, 0).Some? {
      NotedDone(s1, StorePath.Base(FieldStr(e.fields, 0).value));
    }
  }

  lemma MessageKeepsDone(s: State, msg: string)
    requires Bounded(s)
    ensures SameDone(s, Message(s, msg))
  {
    hide StorePath.Base, TrimSpace, Noted;
    NotedDone(s, StorePath.Base(TrimSpace(msg)));
  }

  lemma NotedDone(s: State, drv: Drv)
    requires Bounded(s)
    ensures var r := Noted(s, drv); s.track <= r.track && forall i :: |s.track| <= i < |r.track| ==> !r.track[i].done
  {
    hide StorePath.NameWithoutDrv;
  }

  lemma ResultKeepsTrack(s: State, e: Event)
    requires Bounded(s)
    ensures Result(s, e).track == s.track
  {
    hide Plus, Minus, UintOr0, Signed;
  }

  /** A stop marks exactly the derivation whose build it stops. */
  lemma StopMarks(evs: seq<Event>, n: nat, s: State, i: nat)
    requires n < |evs| && evs[n].action == "stop" && Bounded(s) && DrvsIndexed(s) && i < |s.track|
    requires Matches(evs, n, s, evs[n].id)
    ensures Stop(s, evs[n].id).track[i].done <==> s.track[i].done || StopsBuildOf(evs, n, s.drvs[i])
  {
    hide Retired, StorePath.Base, FieldStr;
    if evs[n].id in s.activities {
      var a := s.activities[evs[n].id];
      assert 0 <= a.node < |s.drvs| && i != a.node ==> s.drvs[i] != s.drvs[a.node];
    }
  }

  lemma {:induction false} DoneFollowsBuilds(evs: seq<Event>, n: nat)
    requires n <= |evs| && FreshIds(evs)
    ensures DoneRight(evs, n, After(evs, n))
  {
    hide Step, DoneRight, FreshIds;
    if n == 0 {
      NothingDone(evs);
    } else {
      DoneFollowsBuilds(evs, n - 1);
      DoneStillFollows(evs, n - 1, After(evs, n - 1), After(evs, n));
    }
  }

  lemma NothingDone(evs: seq<Event>)
    ensures DoneRight(evs, 0, After(evs, 0))
  {
  }

  lemma DoneStillFollows(evs: seq<Event>, n: nat, s: State, r: State)
    requires n < |evs| && FreshIds(evs) && s == After(evs, n) && r == After(evs, n + 1) && r == Step(s, evs[n])
    requires DoneRight(evs, n, s)
    ensures DoneRight(evs, n + 1, r)
  {
    hide Step, After, Inv, Matches, BuildStopped, FreshIds;
    StreamKeepsInv(evs, n);
    StreamKeepsInv(evs, n + 1);
    InvBounded(r);
    assert Matches(evs, n, s, evs[n].id);
    forall i: nat | i < |r.track|
      ensures r.track[i].done <==> BuildStopped(evs, n + 1, r.drvs[i])
    {
      DoneStep(evs, n, s, r, i);
    }
  }

  lemma DoneStep(evs: seq<Event>, n: nat, s: State, r: State, i: nat)
    requires n < |evs| && FreshIds(evs) && s == After(evs, n) && r == Step(s, evs[n]) && Inv(s) && Inv(r)
    requires DoneRight(evs, n, s) && Matches(evs, n, s, evs[n].id) && i < |r.track|
    ensures r.track[i].done <==> BuildStopped(evs, n + 1, r.drvs[i])
  {
    hide Matches, BuildStopped, StopsBuildOf, After, TracksRight, NamesIndexed, ActiveRight, ExpectedRight, FreshIds;
    var e := evs[n];
    BuildStoppedStep(evs, n, r.drvs[i]);
    if e.action == "stop" {
      hide Stop;
      StopKeepsShape(s, e.id);
      StopMarks(evs, n, s, i);
    } else {
      hide Step;
      NonStopKeepsDone(s, e);
      StepKeepsDrvs(s, e);
      NotAStop(evs, n, r.drvs[i]);
      if i >= |s.track| {
        NewIsNew(s.drvs, r.drvs, i);
        if BuildStopped(evs, n, r.drvs[i]) {
          StoppedIsNoted(evs, n, r.drvs[i]);
        }
      }
    }
  }

  lemma NewIsNew(before: seq<Drv>, after: seq<Drv>, i: nat)
    requires before <= after && Distinct(after) && |before| <= i < |after|
    ensures after[i] !in before
  {
    forall j | 0 <= j < |before|
      ensures before[j] != after[i]
    {
      assert after[j] == before[j];
    }
  }

  lemma NotAStop(evs: seq<Event>, n: nat, drv: Drv)
    requires n < |evs| && evs[n].action != "stop"
    ensures !StopsBuildOf(evs, n, drv)
  {
  }

  lemma StopKeepsShape(s: State, id: Id)
    requires Bounded(s)
    ensures |Stop(s, id).track| == |s.track| && Stop(s, id).drvs == s.drvs
  {
    hide Retired;
  }

  /**
   In every reachable state a derivation renders done exactly when a build of it has
   stopped and no active activity is attached to it, and renders active exactly when one is.
   */
  lemma RenderedDoneExactly(evs: seq<Event>, n: nat, i: nat)
    requires n <= |evs| && FreshIds(evs) && i < |After(evs, n).track|
    ensures var s := After(evs, n); var builds, transfers := BuildsAt(s.activities, i), TransfersAt(s.activities, i);
      (TrackState(s.track[i]) == 1 <==> builds != {}) &&
      (TrackState(s.track[i]) == 3 <==> builds == {} && transfers != {}) &&
      (TrackState(s.track[i]) == 2 <==> builds + transfers == {} && BuildStopped(evs, n, s.drvs[i])) &&
      (TrackState(s.track[i]) == 0 <==> builds + transfers == {} && !BuildStopped(evs, n, s.drvs[i]))
  {
    hide After, DrvsIndexed, NamesIndexed, ActiveRight, ExpectedRight, BuildStopped, BuildsAt, TransfersAt;
    StreamKeepsInv(evs, n);
    DoneFollowsBuilds(evs, n);
    assert TrackRight(After(evs, n), i);
  }
}
