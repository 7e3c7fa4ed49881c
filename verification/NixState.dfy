/**
 The state a nom-web session builds from nix's internal-json event stream
 (pkgs/nom-web/parser.go and snapshot.go), without the texts that are only displayed.

 State and Step give the effect of one event on values; Run is the object the
 session updates in place.
 */
module NixState {
  import opened Options
  import opened Text
  import opened Lines
  import opened Sums
  import StorePath

  type Id = nat
  type Drv = string

  const WORD: nat := 0x1_0000_0000_0000_0000

  /** uint64, with its wrapping addition and subtraction. */
  type Word = n: nat | n < WORD
  function Wrap(n: int): Word { n % WORD }
  function Plus(a: Word, b: Word): Word { Wrap(a + b) }
  function Minus(a: Word, b: Word): Word { Wrap(a - b) }

  const COPY_PATH := 100
  const BUILD := 105
  const SUBSTITUTE := 108

  const PROGRESS := 105
  const SET_EXPECTED := 106

  const STORE := "/nix/store/"

  datatype Field = Str(s: string) | Number(n: int)

  datatype Event = Event(action: string, id: Id, typ: int, fields: seq<Field>, msg: string)

  function FieldStr(fields: seq<Field>, i: nat): Option<string> {
    if i < |fields| && fields[i].Str? then Some(fields[i].s) else None
  }

  function FieldUint(fields: seq<Field>, i: nat): Option<Word> {
    if i < |fields| && fields[i].Number? && fields[i].n >= 0 then Some(fields[i].n % WORD) else None
  }

  function UintOr0(fields: seq<Field>, i: nat): Word {
    match FieldUint(fields, i)
    case Some(n) => n
    case None => 0
  }

  /** The conversion of a uint64 to Go's 64-bit int. */
  function Signed(n: Word): (i: int)
    ensures -0x8000_0000_0000_0000 <= i < 0x8000_0000_0000_0000 && i % WORD == n
  {
    if n < WORD / 2 then n else n - WORD
  }

  datatype Activity = Activity(typ: int, node: int, done: Word, expected: Word, running: Word, failed: Word,
                               expectedBy: map<int, Word>)

  datatype TypeAgg = TypeAgg(done: Word, expected: Word, failed: Word, active: set<Id>)

  datatype Track = Track(building: nat, transferring: nat, done: bool)

  datatype State = State(
    activities: map<Id, Activity>,
    byType: map<int, TypeAgg>,
    drvs: seq<Drv>,
    drvIndex: map<Drv, nat>,
    nameIndex: map<string, int>, // -1 once the name is shared
    track: seq<Track>,
    inPlanned: bool)

  const EMPTY := State(map[], map[], [], map[], map[], [], false)
  const NEW_AGG := TypeAgg(0, 0, 0, {})

  /** Every stored index is in range, so no step can index out of bounds. */
  ghost predicate Bounded(s: State) {
    |s.track| == |s.drvs| &&
    (forall d :: d in s.drvIndex ==> s.drvIndex[d] < |s.drvs|) &&
    (forall name :: name in s.nameIndex ==> s.nameIndex[name] < |s.drvs|)
  }

  function AggOf(byType: map<int, TypeAgg>, t: int): TypeAgg {
    if t in byType then byType[t] else NEW_AGG
  }

  // ---------------------------------------------------------------- one event

  /** noteDrv. */
  function Noted(s: State, drv: Drv): (r: State)
    requires Bounded(s)
    ensures Bounded(r) && drv in r.drvIndex && r.activities == s.activities
  {
    if drv in s.drvIndex then s
    else
      var i := |s.drvs|;
      var name := StorePath.NameWithoutDrv(drv);
      s.(drvIndex := s.drvIndex[drv := i], drvs := s.drvs + [drv], track := s.track + [Track(0, 0, false)],
         nameIndex := if name == "" then s.nameIndex
                      else s.nameIndex[name := if name in s.nameIndex then -1 else i])
  }

  /** The activity and its membership in its type's active set, not attached to any derivation yet. */
  function Started(s: State, id: Id, t: int): (r: State)
    requires Bounded(s)
    ensures Bounded(r) && id in r.activities
  {
    var agg := AggOf(s.byType, t);
    s.(activities := s.activities[id := Activity(t, -1, 0, 0, 0, 0, map[])],
       byType := s.byType[t := agg.(active := agg.active + {id})])
  }

  function Attached(s: State, id: Id, i: nat, t: Track): (r: State)
    requires Bounded(s) && id in s.activities && i < |s.drvs|
    ensures Bounded(r)
  {
    s.(activities := s.activities[id := s.activities[id].(node := i)], track := s.track[i := t])
  }

  function BuildAttached(s: State, id: Id, path: string): (r: State)
    requires Bounded(s) && id in s.activities
    ensures Bounded(r)
  {
    var s1 := Noted(s, StorePath.Base(path));
    var i := s1.drvIndex[StorePath.Base(path)];
    Attached(s1, id, i, s1.track[i].(building := s1.track[i].building + 1))
  }

  /** attachTransfer's target: the derivation whose name the output path carries, if it is the only one. */
  function TransferTarget(s: State, path: string): (i: Option<nat>)
    requires Bounded(s)
    ensures i.Some? ==> i.value < |s.drvs|
  {
    var name := StorePath.Name(path);
    if HasPrefix(path, STORE) && name != "" && name in s.nameIndex && s.nameIndex[name] >= 0
    then Some(s.nameIndex[name])
    else None
  }

  function TransferAttached(s: State, id: Id, path: string): (r: State)
    requires Bounded(s) && id in s.activities
    ensures Bounded(r)
  {
    match TransferTarget(s, path)
    case None => s
    case Some(i) => Attached(s, id, i, s.track[i].(transferring := s.track[i].transferring + 1))
  }

  function Start(s: State, e: Event): (r: State)
    requires Bounded(s)
    ensures Bounded(r)
  {
    var s1 := Started(s, e.id, e.typ);
    match FieldStr(e.fields, 0)
    case None => s1
    case Some(path) =>
      if e.typ == BUILD then BuildAttached(s1, e.id, path)
      else if e.typ == SUBSTITUTE || e.typ == COPY_PATH then TransferAttached(s1, e.id, path)
      else s1
  }

  function Dec(n: nat): nat { if n > 0 then n - 1 else 0 }

  function Released(track: seq<Track>, a: Activity): (r: seq<Track>)
    ensures |r| == |track|
  {
    if !(0 <= a.node < |track|) then track
    else
      var t := track[a.node];
      track[a.node := if a.typ == BUILD then t.(building := Dec(t.building), done := true)
                      else t.(transferring := Dec(t.transferring))]
  }

  function Unexpected(byType: map<int, TypeAgg>, gone: map<int, Word>): map<int, TypeAgg> {
    map t | t in byType.Keys + gone.Keys ::
      if t in gone then AggOf(byType, t).(expected := Minus(AggOf(byType, t).expected, gone[t])) else byType[t]
  }

  function Retired(byType: map<int, TypeAgg>, id: Id, a: Activity): map<int, TypeAgg> {
    var agg := AggOf(byType, a.typ);
    var counted := byType[a.typ := agg.(done := Plus(agg.done, a.done), failed := Plus(agg.failed, a.failed))];
    var rest := Unexpected(counted, a.expectedBy);
    rest[a.typ := rest[a.typ].(active := rest[a.typ].active - {id})]
  }

  function Stop(s: State, id: Id): (r: State)
    requires Bounded(s)
    ensures Bounded(r)
  {
    if id !in s.activities then s
    else
      var a := s.activities[id];
      s.(track := Released(s.track, a), byType := Retired(s.byType, id, a), activities := s.activities - {id})
  }

  function Progress(s: State, id: Id, fields: seq<Field>): (r: State)
    requires Bounded(s)
    ensures Bounded(r)
  {
    if id !in s.activities then s
    else s.(activities := s.activities[id := s.activities[id].(
      done := UintOr0(fields, 0), expected := UintOr0(fields, 1),
      running := UintOr0(fields, 2), failed := UintOr0(fields, 3))])
  }

  function ExpectedOf(a: Activity, t: int): Word { if t in a.expectedBy then a.expectedBy[t] else 0 }

  function SetExpected(s: State, id: Id, t: int, n: Word): (r: State)
    requires Bounded(s)
    ensures Bounded(r)
  {
    if id !in s.activities then s
    else
      var a, agg := s.activities[id], AggOf(s.byType, t);
      s.(byType := s.byType[t := agg.(expected := Plus(Minus(agg.expected, ExpectedOf(a, t)), n))],
         activities := s.activities[id := a.(expectedBy := a.expectedBy[t := n])])
  }

  function Result(s: State, e: Event): (r: State)
    requires Bounded(s)
    ensures Bounded(r)
  {
    if e.typ == PROGRESS then Progress(s, e.id, e.fields)
    else if e.typ == SET_EXPECTED && FieldUint(e.fields, 0).Some? && FieldUint(e.fields, 1).Some? then
      SetExpected(s, e.id, Signed(FieldUint(e.fields, 0).value), FieldUint(e.fields, 1).value)
    else s
  }

  predicate PlannedDrv(path: string) { HasPrefix(path, STORE) && HasSuffix(path, ".drv") }

  function Message(s: State, msg: string): (r: State)
    requires Bounded(s)
    ensures Bounded(r)
  {
    if HasSuffix(msg, "derivations will be built:") then s.(inPlanned := true)
    else if !s.inPlanned then s
    else
      var path := TrimSpace(msg);
      if PlannedDrv(path) then Noted(s, StorePath.Base(path)) else s.(inPlanned := false)
  }

  /** apply. */
  function Step(s: State, e: Event): (r: State)
    requires Bounded(s)
    ensures Bounded(r)
  {
    if e.action == "start" then Start(s, e)
    else if e.action == "stop" then Stop(s, e.id)
    else if e.action == "result" then Result(s, e)
    else if e.action == "msg" then Message(s, e.msg)
    else s
  }

  // ---------------------------------------------------------------- what a snapshot shows

  /** drvTrack.state: 0 planned, 1 building, 2 done, 3 transferring. */
  function TrackState(t: Track): nat {
    if t.building > 0 then 1 else if t.transferring > 0 then 3 else if t.done then 2 else 0
  }

  ghost function ActiveOf(activities: map<Id, Activity>, t: int): set<Id> {
    set id | id in activities && activities[id].typ == t
  }

  datatype Counter = Done | Expected | Running | Failed

  function Count(a: Activity, c: Counter): Word {
    match c
    case Done => a.done
    case Expected => a.expected
    case Running => a.running
    case Failed => a.failed
  }

  /** The counter of every activity in ids. */
  ghost function CountsIn(activities: map<Id, Activity>, ids: set<Id>, c: Counter): map<Id, int> {
    map id | id in ids && id in activities :: Count(activities[id], c)
  }

  datatype Totals = Totals(done: Word, expected: Word, running: Word, failed: Word)

  ghost function Live(s: State, t: int, c: Counter): int {
    SumOf(CountsIn(s.activities, AggOf(s.byType, t).active, c))
  }

  /** Stopped activities' counts plus those of the live ones. */
  ghost predicate IsAggregate(s: State, t: int, r: Totals) {
    var agg := AggOf(s.byType, t);
    var expected := Wrap(agg.done + Live(s, t, Expected));
    r.done == Wrap(agg.done + Live(s, t, Done)) &&
    r.expected == (if agg.expected > expected then agg.expected else expected) &&
    r.running == Wrap(Live(s, t, Running)) &&
    r.failed == Wrap(agg.failed + Live(s, t, Failed))
  }

  // ---------------------------------------------------------------- the object

  class Run {
    var activities: map<Id, Activity>
    var byType: map<int, TypeAgg>
    var drvs: seq<Drv>
    var drvIndex: map<Drv, nat>
    var nameIndex: map<string, int>
    var track: seq<Track>
    var inPlanned: bool

    constructor ()
      ensures View() == EMPTY
    {
      activities, byType, drvs, drvIndex, nameIndex, track, inPlanned := map[], map[], [], map[], map[], [], false;
    }

    ghost function View(): State
      reads this
    {
      State(activities, byType, drvs, drvIndex, nameIndex, track, inPlanned)
    }

    method NoteDrv(drv: Drv) returns (i: nat)
      requires Bounded(View())
      modifies this
      ensures View() == Noted(old(View()), drv) && i == drvIndex[drv]
    {
      if drv in drvIndex {
        return drvIndex[drv];
      }
      i := |drvs|;
      drvIndex := drvIndex[drv := i];
      drvs := drvs + [drv];
      track := track + [Track(0, 0, false)];
      var name := StorePath.NameWithoutDrv(drv);
      if name != "" {
        nameIndex := nameIndex[name := if name in nameIndex then -1 else i];
      }
    }

    method AttachTransfer(id: Id, path: string)
      requires Bounded(View()) && id in activities
      modifies this
      ensures View() == TransferAttached(old(View()), id, path)
    {
      if !HasPrefix(path, STORE) {
        return;
      }
      var name := StorePath.Name(path);
      if name == "" {
        return;
      }
      if name !in nameIndex || nameIndex[name] < 0 {
        return;
      }
      var i := nameIndex[name];
      activities := activities[id := activities[id].(node := i)];
      track := track[i := track[i].(transferring := track[i].transferring + 1)];
    }

    method Open(id: Id, t: int)
      requires Bounded(View())
      modifies this
      ensures View() == Started(old(View()), id, t)
    {
      var agg := AggOf(byType, t);
      activities := activities[id := Activity(t, -1, 0, 0, 0, 0, map[])];
      byType := byType[t := agg.(active := agg.active + {id})];
    }

    method AttachBuild(id: Id, path: string)
      requires Bounded(View()) && id in activities
      modifies this
      ensures View() == BuildAttached(old(View()), id, path)
    {
      hide Noted;
      var i := NoteDrv(StorePath.Base(path));
      activities := activities[id := activities[id].(node := i)];
      track := track[i := track[i].(building := track[i].building + 1)];
    }

    method ApplyStart(e: Event)
      requires Bounded(View())
      modifies this
      ensures View() == Start(old(View()), e)
    {
      hide Started, BuildAttached, TransferAttached;
      Open(e.id, e.typ);
      var path := FieldStr(e.fields, 0);
      if path.None? {
        return;
      }
      if e.typ == BUILD {
        AttachBuild(e.id, path.value);
      } else if e.typ == SUBSTITUTE || e.typ == COPY_PATH {
        AttachTransfer(e.id, path.value);
      }
    }

    /** The loop over the activity's expectations. */
    method Unexpect(gone: map<int, Word>)
      modifies this`byType
      ensures byType == Unexpected(old(byType), gone)
    {
      var todo := gone.Keys;
      while todo != {}
        invariant todo <= gone.Keys
        invariant byType == Unexpected(old(byType), gone - todo)
        decreases |todo|
      {
        ghost var some := AnyElement(todo);
        assert some in todo;
        var t :| t in todo;
        var agg := AggOf(byType, t);
        byType := byType[t := agg.(expected := Minus(agg.expected, gone[t]))];
        todo := todo - {t};
      }
      assert gone - {} == gone;
    }

    method ApplyStop(id: Id)
      requires Bounded(View())
      modifies this
      ensures View() == Stop(old(View()), id)
    {
      if id !in activities {
        return;
      }
      var a := activities[id];
      if 0 <= a.node < |track| {
        var t := track[a.node];
        if a.typ == BUILD {
          if t.building > 0 {
            t := t.(building := t.building - 1);
          }
          t := t.(done := true);
        } else if t.transferring > 0 {
          t := t.(transferring := t.transferring - 1);
        }
        track := track[a.node := t];
      }
      var agg := AggOf(byType, a.typ);
      byType := byType[a.typ := agg.(done := Plus(agg.done, a.done), failed := Plus(agg.failed, a.failed))];
      Unexpect(a.expectedBy);
      byType := byType[a.typ := byType[a.typ].(active := byType[a.typ].active - {id})];
      activities := activities - {id};
    }

    method ApplyResult(e: Event)
      requires Bounded(View())
      modifies this
      ensures View() == Result(old(View()), e)
    {
      if e.id !in activities {
        return;
      }
      var a := activities[e.id];
      if e.typ == PROGRESS {
        a := a.(done := UintOr0(e.fields, 0), expected := UintOr0(e.fields, 1));
        a := a.(running := UintOr0(e.fields, 2), failed := UintOr0(e.fields, 3));
        activities := activities[e.id := a];
      } else if e.typ == SET_EXPECTED {
        var kind, n := FieldUint(e.fields, 0), FieldUint(e.fields, 1);
        if kind.None? || n.None? {
          return;
        }
        var t := Signed(kind.value);
        var agg := AggOf(byType, t);
        agg := agg.(expected := Minus(agg.expected, ExpectedOf(a, t)));
        activities := activities[e.id := a.(expectedBy := a.expectedBy[t := n.value])];
        byType := byType[t := agg.(expected := Plus(agg.expected, n.value))];
      }
    }

    method ApplyMessage(msg: string)
      requires Bounded(View())
      modifies this
      ensures View() == Message(old(View()), msg)
    {
      if HasSuffix(msg, "derivations will be built:") {
        inPlanned := true;
      } else if inPlanned {
        var path := TrimSpace(msg);
        if PlannedDrv(path) {
          var _ := NoteDrv(StorePath.Base(path));
        } else {
          inPlanned := false;
        }
      }
    }

    method Apply(e: Event)
      requires Bounded(View())
      modifies this
      ensures View() == Step(old(View()), e) && Bounded(View())
    {
      if e.action == "start" {
        ApplyStart(e);
      } else if e.action == "stop" {
        ApplyStop(e.id);
      } else if e.action == "result" {
        ApplyResult(e);
      } else if e.action == "msg" {
        ApplyMessage(e.msg);
      }
    }

    method Aggregate(t: int) returns (r: Totals)
      requires AggOf(byType, t).active <= activities.Keys
      ensures IsAggregate(View(), t, r)
    {
      hide TotalsSoFar, CountsIn, Plus, Wrap;
      if t !in byType {
        NothingLive(activities, NEW_AGG);
        AllLive(View(), t, Totals(0, 0, 0, 0));
        return Totals(0, 0, 0, 0);
      }
      var agg := byType[t];
      r := Totals(agg.done, agg.done, 0, agg.failed);
      var todo := agg.active;
      ghost var seen: set<Id> := {};
      NothingLive(activities, agg);
      while todo != {}
        invariant todo !! seen && todo + seen == agg.active
        invariant TotalsSoFar(activities, agg, seen, r)
        decreases |todo|
      {
        var id :| id in todo;
        var a := activities[id];
        LiveOneMore(activities, agg, seen, id, r);
        r := Totals(Plus(r.done, a.done), Plus(r.expected, a.expected), Plus(r.running, a.running),
                    Plus(r.failed, a.failed));
        seen := seen + {id};
        todo := todo - {id};
      }
      assert seen == agg.active;
      AllLive(View(), t, r);
      if agg.expected > r.expected {
        r := r.(expected := agg.expected);
      }
    }

    /** The bytes of encodeDrvStates before the base64 encoding. */
    method EncodeDrvStates() returns (b: seq<nat>)
      ensures |b| == |track| && forall i :: 0 <= i < |track| ==> b[i] == TrackState(track[i])
    {
      b := [];
      for i := 0 to |track|
        invariant |b| == i && forall k :: 0 <= k < i ==> b[k] == TrackState(track[k])
      {
        b := b + [TrackState(track[i])];
      }
    }
  }

  lemma AnyElement<T>(s: set<T>) returns (x: T)
    requires s != {}
    ensures x in s
  {
    x :| x in s;
  }

  lemma NothingLive(activities: map<Id, Activity>, agg: TypeAgg)
    ensures TotalsSoFar(activities, agg, {}, Totals(agg.done, agg.done, 0, agg.failed))
  {
    assert forall c :: CountsIn(activities, {}, c) == map[];
  }

  lemma AllLive(s: State, t: int, r: Totals)
    requires TotalsSoFar(s.activities, AggOf(s.byType, t), AggOf(s.byType, t).active, r)
    ensures var agg := AggOf(s.byType, t);
      IsAggregate(s, t, if agg.expected > r.expected then r.(expected := agg.expected) else r)
  {
    hide CountsIn, Wrap;
  }

  /** The running totals of aggregate's loop. */
  ghost predicate TotalsSoFar(activities: map<Id, Activity>, agg: TypeAgg, seen: set<Id>, r: Totals) {
    r.done == Wrap(agg.done + SumOf(CountsIn(activities, seen, Done))) &&
    r.expected == Wrap(agg.done + SumOf(CountsIn(activities, seen, Expected))) &&
    r.running == Wrap(0 + SumOf(CountsIn(activities, seen, Running))) &&
    r.failed == Wrap(agg.failed + SumOf(CountsIn(activities, seen, Failed)))
  }

  lemma CountOneMore(activities: map<Id, Activity>, seen: set<Id>, id: Id, c: Counter)
    requires id !in seen && id in activities
    ensures SumOf(CountsIn(activities, seen + {id}, c)) ==
      SumOf(CountsIn(activities, seen, c)) + Count(activities[id], c)
  {
    var before := CountsIn(activities, seen, c);
    SumAdds(before, id, Count(activities[id], c));
    assert before - {id} == before;
    assert CountsIn(activities, seen + {id}, c) == before[id := Count(activities[id], c)];
  }

  lemma CountedOneMore(x: Word, base: int, sum: int, v: Word)
    requires x == Wrap(base + sum)
    ensures Plus(x, v) == Wrap(base + (sum + v))
  {
  }

  lemma LiveOneMore(activities: map<Id, Activity>, agg: TypeAgg, seen: set<Id>, id: Id, r: Totals)
    requires id !in seen && id in activities && TotalsSoFar(activities, agg, seen, r)
    ensures var a := activities[id];
      TotalsSoFar(activities, agg, seen + {id},
        Totals(Plus(r.done, a.done), Plus(r.expected, a.expected), Plus(r.running, a.running),
               Plus(r.failed, a.failed)))
  {
    hide CountsIn, Plus, Wrap;
    var a := activities[id];
    CountOneMore(activities, seen, id, Done);
    CountOneMore(activities, seen, id, Expected);
    CountOneMore(activities, seen, id, Running);
    CountOneMore(activities, seen, id, Failed);
    CountedOneMore(r.done, agg.done, SumOf(CountsIn(activities, seen, Done)), a.done);
    CountedOneMore(r.expected, agg.done, SumOf(CountsIn(activities, seen, Expected)), a.expected);
    CountedOneMore(r.running, 0, SumOf(CountsIn(activities, seen, Running)), a.running);
    CountedOneMore(r.failed, agg.failed, SumOf(CountsIn(activities, seen, Failed)), a.failed);
  }
}
