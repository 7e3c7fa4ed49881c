/**
 What every event keeps, for streams that never start an id that is still active:
 the indexes agree with the derivation list, and the counters with the activities.
 */
module NixLaws {
  import opened Text
  import opened Lines
  import opened Sums
  import opened NixState
  import StorePath

  /** nix does not reuse the id of an activity that has not stopped. */
  predicate Fresh(s: State, e: Event) {
    e.action == "start" ==> e.id !in s.activities
  }

  // ---------------------------------------------------------------- invariants

  /** drvIndex is the inverse of drvs. */
  ghost predicate DrvsIndexed(s: State) {
    Distinct(s.drvs) && (forall d :: d in s.drvIndex <==> d in s.drvs) &&
    forall d :: d in s.drvIndex ==> s.drvIndex[d] < |s.drvs| && s.drvs[s.drvIndex[d]] == d
  }

  ghost predicate Named(drvs: seq<Drv>, name: string, i: nat) {
    i < |drvs| && StorePath.NameWithoutDrv(drvs[i]) == name
  }

  ghost predicate OnlyNamed(drvs: seq<Drv>, name: string, i: nat) {
    Named(drvs, name, i) && forall j: nat :: Named(drvs, name, j) ==> j == i
  }

  ghost predicate SharedName(drvs: seq<Drv>, name: string) {
    exists i: nat, j: nat :: i < j && Named(drvs, name, i) && Named(drvs, name, j)
  }

  /** The entry of a name: none, its only derivation, or -1. */
  ghost predicate NameIndexed(s: State, name: string) {
    (name in s.nameIndex <==> name != "" && exists i: nat :: Named(s.drvs, name, i)) &&
    (name in s.nameIndex ==>
      if s.nameIndex[name] >= 0 then OnlyNamed(s.drvs, name, s.nameIndex[name])
      else s.nameIndex[name] == -1 && SharedName(s.drvs, name))
  }

  ghost predicate NamesIndexed(s: State) { forall name :: NameIndexed(s, name) }

  ghost function BuildsAt(activities: map<Id, Activity>, i: nat): set<Id> {
    set id | id in activities && activities[id].typ == BUILD && activities[id].node == i
  }

  ghost function TransfersAt(activities: map<Id, Activity>, i: nat): set<Id> {
    set id | id in activities && activities[id].typ != BUILD && activities[id].node == i
  }

  ghost predicate TrackRight(s: State, i: nat)
    requires i < |s.track|
  {
    s.track[i].building == |BuildsAt(s.activities, i)| && s.track[i].transferring == |TransfersAt(s.activities, i)|
  }

  /** Each derivation's counters count the active activities attached to it. */
  ghost predicate TracksRight(s: State) {
    (forall id :: id in s.activities ==> -1 <= s.activities[id].node < |s.drvs|) &&
    forall i: nat :: i < |s.track| ==> TrackRight(s, i)
  }

  ghost predicate ActiveRight(s: State) {
    forall t :: AggOf(s.byType, t).active == ActiveOf(s.activities, t)
  }

  ghost function Expectations(activities: map<Id, Activity>, t: int): map<Id, int> {
    map id | id in activities :: ExpectedOf(activities[id], t)
  }

  ghost predicate ExpectedRight(s: State) {
    forall t :: AggOf(s.byType, t).expected == Wrap(SumOf(Expectations(s.activities, t)))
  }

  ghost predicate Inv(s: State) {
    Bounded(s) && DrvsIndexed(s) && NamesIndexed(s) && TracksRight(s) && ActiveRight(s) && ExpectedRight(s)
  }

  /** State and Indexes differ only in what a step of an activity touches. */
  ghost predicate SameDrvs(s: State, r: State) {
    r.drvs == s.drvs && r.drvIndex == s.drvIndex && r.nameIndex == s.nameIndex
  }

  lemma SameDrvsKeepsIndexes(s: State, r: State)
    requires SameDrvs(s, r) && DrvsIndexed(s) && NamesIndexed(s)
    ensures DrvsIndexed(r) && NamesIndexed(r)
  {
    forall name
      ensures NameIndexed(r, name)
    {
      assert NameIndexed(s, name);
    }
  }

  // ---------------------------------------------------------------- noteDrv

  lemma NotedKeepsDrvs(s: State, drv: Drv)
    requires Bounded(s) && DrvsIndexed(s)
    ensures DrvsIndexed(Noted(s, drv))
  {
  }

  lemma NamedGrows(drvs: seq<Drv>, drv: Drv, name: string)
    ensures forall i: nat :: Named(drvs + [drv], name, i) <==>
      Named(drvs, name, i) || (i == |drvs| && StorePath.NameWithoutDrv(drv) == name)
  {
    hide StorePath.NameWithoutDrv;
  }

  lemma NotedKeepsName(s: State, drv: Drv, name: string)
    requires Bounded(s) && NameIndexed(s, name) && drv !in s.drvIndex
    ensures NameIndexed(Noted(s, drv), name)
  {
    hide StorePath.NameWithoutDrv, Named;
    NamedGrows(s.drvs, drv, name);
    var r, i := Noted(s, drv), |s.drvs|;
    assert !Named(s.drvs, name, i) by {
      NotNamed(s.drvs, name);
    }
    if name == StorePath.NameWithoutDrv(drv) {
      assert Named(r.drvs, name, i);
      if name in s.nameIndex {
        var j: nat :| Named(s.drvs, name, j);
        assert j < i by {
          NotNamed(s.drvs, name);
        }
        assert Named(r.drvs, name, j);
      }
    } else {
      assert forall j: nat :: Named(r.drvs, name, j) <==> Named(s.drvs, name, j);
      SameNames(s, r, name);
    }
  }

  lemma NotNamed(drvs: seq<Drv>, name: string)
    ensures forall i: nat :: Named(drvs, name, i) ==> i < |drvs|
  {
  }

  lemma SameNames(s: State, r: State, name: string)
    requires NameIndexed(s, name)
    requires forall j: nat :: Named(r.drvs, name, j) <==> Named(s.drvs, name, j)
    requires name in r.nameIndex <==> name in s.nameIndex
    requires name in s.nameIndex ==> r.nameIndex[name] == s.nameIndex[name]
    ensures NameIndexed(r, name)
  {
    hide Named;
  }

  lemma NotedKeepsNames(s: State, drv: Drv)
    requires Bounded(s) && NamesIndexed(s)
    ensures NamesIndexed(Noted(s, drv))
  {
    hide NameIndexed, Noted;
    forall name
      ensures NameIndexed(Noted(s, drv), name)
    {
      assert NameIndexed(s, name);
      if drv in s.drvIndex {
        NotedAgain(s, drv);
      } else {
        NotedKeepsName(s, drv, name);
      }
    }
  }

  lemma NotedAgain(s: State, drv: Drv)
    requires Bounded(s) && drv in s.drvIndex
    ensures Noted(s, drv) == s
  {
  }

  lemma NotedKeepsTracks(s: State, drv: Drv)
    requires Bounded(s) && TracksRight(s)
    ensures TracksRight(Noted(s, drv))
  {
    var r := Noted(s, drv);
    forall i: nat | i < |r.track|
      ensures TrackRight(r, i)
    {
      if i < |s.track| {
        assert TrackRight(s, i);
      } else {
        assert BuildsAt(s.activities, i) == {} && TransfersAt(s.activities, i) == {};
      }
    }
  }

  lemma NotedKeepsInv(s: State, drv: Drv)
    requires Inv(s)
    ensures Inv(Noted(s, drv))
  {
    hide DrvsIndexed, NamesIndexed, TracksRight, Bounded;
    NotedKeepsDrvs(s, drv);
    NotedKeepsNames(s, drv);
    NotedKeepsTracks(s, drv);
    NotedKeepsRest(s, drv);
  }

  lemma NotedKeepsRest(s: State, drv: Drv)
    requires Bounded(s)
    ensures Noted(s, drv).byType == s.byType && Noted(s, drv).activities == s.activities
  {
  }

  // ---------------------------------------------------------------- start

  lemma StartedKeepsTracks(s: State, id: Id, t: int)
    requires Bounded(s) && TracksRight(s) && id !in s.activities
    ensures TracksRight(Started(s, id, t))
  {
    var r := Started(s, id, t);
    forall i: nat | i < |r.track|
      ensures TrackRight(r, i)
    {
      assert TrackRight(s, i);
      assert BuildsAt(r.activities, i) == BuildsAt(s.activities, i);
      assert TransfersAt(r.activities, i) == TransfersAt(s.activities, i);
    }
  }

  lemma StartedKeepsActive(s: State, id: Id, t: int)
    requires Bounded(s) && ActiveRight(s) && id !in s.activities
    ensures ActiveRight(Started(s, id, t))
  {
    var r := Started(s, id, t);
    forall u
      ensures AggOf(r.byType, u).active == ActiveOf(r.activities, u)
    {
      assert AggOf(s.byType, u).active == ActiveOf(s.activities, u);
      assert ActiveOf(r.activities, u) == if u == t then ActiveOf(s.activities, u) + {id}
        else ActiveOf(s.activities, u);
    }
  }

  lemma StartedKeepsExpected(s: State, id: Id, t: int)
    requires Bounded(s) && ExpectedRight(s) && id !in s.activities
    ensures ExpectedRight(Started(s, id, t))
  {
    hide Wrap, SumOf;
    var r := Started(s, id, t);
    forall u
      ensures AggOf(r.byType, u).expected == Wrap(SumOf(Expectations(r.activities, u)))
    {
      assert AggOf(s.byType, u).expected == Wrap(SumOf(Expectations(s.activities, u)));
      var before := Expectations(s.activities, u);
      SumAdds(before, id, 0);
      assert Expectations(r.activities, u) == before[id := 0];
    }
  }

  lemma StartedKeepsInv(s: State, id: Id, t: int)
    requires Inv(s) && id !in s.activities
    ensures Inv(Started(s, id, t)) && Started(s, id, t).activities[id] == Activity(t, -1, 0, 0, 0, 0, map[])
  {
    hide DrvsIndexed, NamesIndexed, TracksRight, ActiveRight, ExpectedRight;
    StartedKeepsTracks(s, id, t);
    StartedKeepsActive(s, id, t);
    StartedKeepsExpected(s, id, t);
    SameDrvsKeepsIndexes(s, Started(s, id, t));
  }

  /** Changing only the node of an activity changes no set of ids by type and no expectation. */
  lemma AttachedKeepsAggregates(s: State, id: Id, i: nat, t: Track)
    requires Bounded(s) && id in s.activities && i < |s.drvs| && ActiveRight(s) && ExpectedRight(s)
    ensures ActiveRight(Attached(s, id, i, t)) && ExpectedRight(Attached(s, id, i, t))
  {
    var r := Attached(s, id, i, t);
    forall u
      ensures AggOf(r.byType, u).active == ActiveOf(r.activities, u)
      ensures AggOf(r.byType, u).expected == Wrap(SumOf(Expectations(r.activities, u)))
    {
      assert ActiveOf(r.activities, u) == ActiveOf(s.activities, u);
      assert Expectations(r.activities, u) == Expectations(s.activities, u);
      assert AggOf(s.byType, u).active == ActiveOf(s.activities, u);
      assert AggOf(s.byType, u).expected == Wrap(SumOf(Expectations(s.activities, u)));
    }
  }

  /** The counters of derivation i once activity id is attached to it. */
  function OneMore(t: Track, isBuild: bool): Track {
    if isBuild then t.(building := t.building + 1) else t.(transferring := t.transferring + 1)
  }

  lemma AttachedKeepsTrack(s: State, id: Id, i: nat, t: Track, j: nat)
    requires Bounded(s) && id in s.activities && s.activities[id].node == -1 && i < |s.drvs|
    requires t == OneMore(s.track[i], s.activities[id].typ == BUILD)
    requires j < |s.track| && TrackRight(s, j)
    ensures TrackRight(Attached(s, id, i, t), j)
  {
    hide BuildsAt, TransfersAt;
    NodeSet(s.activities, id, i, j);
  }

  /** The sets of builds and transfers at j after activity id moves from no derivation to i. */
  lemma NodeSet(activities: map<Id, Activity>, id: Id, i: nat, j: nat)
    requires id in activities && activities[id].node == -1
    ensures var moved := activities[id := activities[id].(node := i)];
      BuildsAt(moved, j) == BuildsAt(activities, j) + (if j == i && activities[id].typ == BUILD then {id} else {}) &&
      TransfersAt(moved, j) ==
        TransfersAt(activities, j) + (if j == i && activities[id].typ != BUILD then {id} else {}) &&
      id !in BuildsAt(activities, j) && id !in TransfersAt(activities, j)
  {
  }

  /** Attaching an unattached activity adds it to one of its derivation's two counters. */
  lemma AttachedKeepsTracks(s: State, id: Id, i: nat, t: Track)
    requires Bounded(s) && TracksRight(s) && id in s.activities && s.activities[id].node == -1 && i < |s.drvs|
    requires t == OneMore(s.track[i], s.activities[id].typ == BUILD)
    ensures TracksRight(Attached(s, id, i, t))
  {
    hide TrackRight, OneMore;
    forall j: nat | j < |s.track|
      ensures TrackRight(Attached(s, id, i, t), j)
    {
      AttachedKeepsTrack(s, id, i, t, j);
    }
  }

  lemma AttachedKeepsInv(s: State, id: Id, i: nat, t: Track)
    requires Inv(s) && id in s.activities && s.activities[id].node == -1 && i < |s.drvs|
    requires t == OneMore(s.track[i], s.activities[id].typ == BUILD)
    ensures Inv(Attached(s, id, i, t))
  {
    hide DrvsIndexed, NamesIndexed, TracksRight, ActiveRight, ExpectedRight;
    AttachedKeepsTracks(s, id, i, t);
    AttachedKeepsAggregates(s, id, i, t);
    SameDrvsKeepsIndexes(s, Attached(s, id, i, t));
  }

  lemma BuildAttachedKeepsInv(s: State, id: Id, path: string)
    requires Inv(s) && id in s.activities && s.activities[id].node == -1 && s.activities[id].typ == BUILD
    ensures Inv(BuildAttached(s, id, path))
  {
    hide Inv, Noted, Attached, StorePath.Base;
    InvBounded(s);
    var drv := StorePath.Base(path);
    NotedKeepsInv(s, drv);
    var r := Noted(s, drv);
    var i := r.drvIndex[drv];
    InvBounded(r);
    AttachedKeepsInv(r, id, i, r.track[i].(building := r.track[i].building + 1));
  }

  lemma TransferAttachedKeepsInv(s: State, id: Id, path: string)
    requires Inv(s) && id in s.activities && s.activities[id].node == -1 && s.activities[id].typ != BUILD
    ensures Inv(TransferAttached(s, id, path))
  {
    hide Inv, Attached, TransferTarget;
    InvBounded(s);
    if TransferTarget(s, path).Some? {
      var i := TransferTarget(s, path).value;
      AttachedKeepsInv(s, id, i, s.track[i].(transferring := s.track[i].transferring + 1));
    }
  }

  lemma StartKeepsInv(s: State, e: Event)
    requires Inv(s) && e.id !in s.activities
    ensures Inv(Start(s, e))
  {
    hide Inv, Started, BuildAttached, TransferAttached;
    InvBounded(s);
    StartedKeepsInv(s, e.id, e.typ);
    var s1 := Started(s, e.id, e.typ);
    var path := FieldStr(e.fields, 0);
    if path.Some? && e.typ == BUILD {
      BuildAttachedKeepsInv(s1, e.id, path.value);
    } else if path.Some? {
      TransferAttachedKeepsInv(s1, e.id, path.value);
    }
  }

  lemma InvBounded(s: State)
    requires Inv(s)
    ensures Bounded(s)
  {
  }

  // ---------------------------------------------------------------- stop

  lemma StopKeepsTrack(s: State, id: Id, i: nat)
    requires Bounded(s) && id in s.activities && i < |s.track| && TrackRight(s, i)
    ensures TrackRight(Stop(s, id), i)
  {
    hide Retired;
    var r, a := Stop(s, id), s.activities[id];
    var builds, transfers := BuildsAt(s.activities, i), TransfersAt(s.activities, i);
    assert BuildsAt(r.activities, i) == builds - {id};
    assert TransfersAt(r.activities, i) == transfers - {id};
    if a.node == i {
      assert if a.typ == BUILD then id in builds && id !in transfers else id in transfers && id !in builds;
    } else {
      assert id !in builds && id !in transfers;
    }
  }

  lemma StopKeepsTracks(s: State, id: Id)
    requires Bounded(s) && TracksRight(s) && id in s.activities
    ensures TracksRight(Stop(s, id))
  {
    hide Retired, TrackRight;
    forall i: nat | i < |s.track|
      ensures TrackRight(Stop(s, id), i)
    {
      StopKeepsTrack(s, id, i);
    }
  }

  lemma RetiredParts(byType: map<int, TypeAgg>, id: Id, a: Activity, u: int)
    ensures AggOf(Retired(byType, id, a), u).active ==
      if u == a.typ then AggOf(byType, u).active - {id} else AggOf(byType, u).active
    ensures AggOf(Retired(byType, id, a), u).expected ==
      if u in a.expectedBy then Minus(AggOf(byType, u).expected, a.expectedBy[u]) else AggOf(byType, u).expected
    ensures AggOf(Retired(byType, id, a), u).done ==
      if u == a.typ then Plus(AggOf(byType, u).done, a.done) else AggOf(byType, u).done
    ensures AggOf(Retired(byType, id, a), u).failed ==
      if u == a.typ then Plus(AggOf(byType, u).failed, a.failed) else AggOf(byType, u).failed
  {
    hide Plus, Minus;
  }

  lemma StopKeepsActive(s: State, id: Id)
    requires Bounded(s) && ActiveRight(s) && id in s.activities
    ensures ActiveRight(Stop(s, id))
  {
    hide Retired, Released;
    var r, a := Stop(s, id), s.activities[id];
    forall u
      ensures AggOf(r.byType, u).active == ActiveOf(r.activities, u)
    {
      RetiredParts(s.byType, id, a, u);
      assert AggOf(s.byType, u).active == ActiveOf(s.activities, u);
      assert ActiveOf(r.activities, u) == ActiveOf(s.activities, u) - {id};
    }
  }

  lemma Unadded(sum: int, n: Word)
    ensures Minus(Wrap(sum + n), n) == Wrap(sum)
  {
  }

  lemma StopKeepsExpected(s: State, id: Id)
    requires Bounded(s) && ExpectedRight(s) && id in s.activities
    ensures ExpectedRight(Stop(s, id))
  {
    hide Retired, Released, Wrap, Minus, AggOf, SumOf;
    var r, a := Stop(s, id), s.activities[id];
    forall u
      ensures AggOf(r.byType, u).expected == Wrap(SumOf(Expectations(r.activities, u)))
    {
      RetiredParts(s.byType, id, a, u);
      var before: map<Id, int> := Expectations(s.activities, u);
      var gone: set<Id> := {id};
      SumAdds(before, id, 0);
      assert Expectations(r.activities, u) == before - gone;
      Unadded(SumOf(before - gone), ExpectedOf(a, u));
    }
  }

  lemma StopKeepsInv(s: State, id: Id)
    requires Inv(s)
    ensures Inv(Stop(s, id))
  {
    hide DrvsIndexed, NamesIndexed, TracksRight, ActiveRight, ExpectedRight, Retired, Released;
    if id in s.activities {
      StopKeepsTracks(s, id);
      StopKeepsActive(s, id);
      StopKeepsExpected(s, id);
      SameDrvsKeepsIndexes(s, Stop(s, id));
    }
  }

  // ---------------------------------------------------------------- results and messages

  /** An update of one activity that keeps its type and node leaves the tracks and active sets alone. */
  lemma UpdateKeepsPlaces(s: State, id: Id, a: Activity, byType: map<int, TypeAgg>)
    requires Bounded(s) && TracksRight(s) && ActiveRight(s) && id in s.activities
    requires a.typ == s.activities[id].typ && a.node == s.activities[id].node
    requires forall t :: AggOf(byType, t).active == AggOf(s.byType, t).active
    ensures var r := s.(activities := s.activities[id := a], byType := byType); TracksRight(r) && ActiveRight(r)
  {
    var r := s.(activities := s.activities[id := a], byType := byType);
    forall i: nat | i < |r.track|
      ensures TrackRight(r, i)
    {
      assert TrackRight(s, i);
      assert BuildsAt(r.activities, i) == BuildsAt(s.activities, i);
      assert TransfersAt(r.activities, i) == TransfersAt(s.activities, i);
    }
    forall t
      ensures AggOf(r.byType, t).active == ActiveOf(r.activities, t)
    {
      assert AggOf(s.byType, t).active == ActiveOf(s.activities, t);
      assert ActiveOf(r.activities, t) == ActiveOf(s.activities, t);
    }
  }

  lemma ProgressKeepsInv(s: State, id: Id, fields: seq<Field>)
    requires Inv(s)
    ensures Inv(Progress(s, id, fields))
  {
    hide DrvsIndexed, NamesIndexed, TracksRight, ActiveRight, UintOr0;
    if id in s.activities {
      var r := Progress(s, id, fields);
      UpdateKeepsPlaces(s, id, r.activities[id], s.byType);
      SameDrvsKeepsIndexes(s, r);
      forall t
        ensures AggOf(r.byType, t).expected == Wrap(SumOf(Expectations(r.activities, t)))
      {
        assert AggOf(s.byType, t).expected == Wrap(SumOf(Expectations(s.activities, t)));
        assert Expectations(r.activities, t) == Expectations(s.activities, t);
      }
    }
  }

  lemma ExpectationMoves(sum: int, before: Word, n: Word)
    ensures Plus(Minus(Wrap(sum), before), n) == Wrap(sum - before + n)
  {
  }

  lemma SetExpectedKeepsExpected(s: State, id: Id, t: int, n: Word)
    requires Bounded(s) && ExpectedRight(s) && id in s.activities
    ensures ExpectedRight(SetExpected(s, id, t, n))
  {
    hide Plus, Minus, Wrap, SumOf;
    var r, a := SetExpected(s, id, t, n), s.activities[id];
    forall u
      ensures AggOf(r.byType, u).expected == Wrap(SumOf(Expectations(r.activities, u)))
    {
      assert AggOf(s.byType, u).expected == Wrap(SumOf(Expectations(s.activities, u)));
      var before := Expectations(s.activities, u);
      if u == t {
        SumAdds(before, id, n);
        assert Expectations(r.activities, u) == before[id := n];
        ExpectationMoves(SumOf(before), ExpectedOf(a, t), n);
      } else {
        assert Expectations(r.activities, u) == before;
      }
    }
  }

  lemma SetExpectedKeepsInv(s: State, id: Id, t: int, n: Word)
    requires Inv(s)
    ensures Inv(SetExpected(s, id, t, n))
  {
    hide DrvsIndexed, NamesIndexed, TracksRight, ActiveRight, ExpectedRight, Plus, Minus;
    if id in s.activities {
      var r := SetExpected(s, id, t, n);
      SetExpectedKeepsExpected(s, id, t, n);
      UpdateKeepsPlaces(s, id, r.activities[id], r.byType);
      SameDrvsKeepsIndexes(s, r);
    }
  }

  lemma MessageKeepsInv(s: State, msg: string)
    requires Inv(s)
    ensures Inv(Message(s, msg))
  {
    hide DrvsIndexed, NamesIndexed, TracksRight, ActiveRight, ExpectedRight, Noted, TrimSpace;
    NotedKeepsInv(s, StorePath.Base(TrimSpace(msg)));
    PlanningKeepsInv(s, true);
    PlanningKeepsInv(s, false);
  }

  lemma PlanningKeepsInv(s: State, planned: bool)
    requires Inv(s)
    ensures Inv(s.(inPlanned := planned))
  {
    hide DrvsIndexed, NamesIndexed;
    var r := s.(inPlanned := planned);
    SameDrvsKeepsIndexes(s, r);
    forall i: nat | i < |r.track|
      ensures TrackRight(r, i)
    {
      assert TrackRight(s, i);
    }
  }

  /** Every event keeps every invariant. */
  lemma StepKeepsInv(s: State, e: Event)
    requires Inv(s) && Fresh(s, e)
    ensures Inv(Step(s, e))
  {
    hide Inv, Start, Stop, Progress, SetExpected, Message, Signed;
    InvBounded(s);
    if e.action == "start" {
      StartKeepsInv(s, e);
    } else if e.action == "stop" {
      StopKeepsInv(s, e.id);
    } else if e.action == "result" {
      ProgressKeepsInv(s, e.id, e.fields);
      if FieldUint(e.fields, 0).Some? && FieldUint(e.fields, 1).Some? {
        SetExpectedKeepsInv(s, e.id, Signed(FieldUint(e.fields, 0).value), FieldUint(e.fields, 1).value);
      }
    } else {
      MessageKeepsInv(s, e.msg);
    }
  }

  lemma EmptyInv()
    ensures Inv(EMPTY)
  {
    forall t
      ensures AggOf(EMPTY.byType, t).active == ActiveOf(EMPTY.activities, t)
      ensures AggOf(EMPTY.byType, t).expected == Wrap(SumOf(Expectations(EMPTY.activities, t)))
    {
      assert Expectations(EMPTY.activities, t) == map[];
    }
  }
}
