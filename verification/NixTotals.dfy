module NixTotals {
  // All four totals of a type against the events: what aggregate returns in terms of the
  // last reports of the activities started, and of their last reported expectations.

  import opened Options
  import opened Lines
  import opened Sums
  import opened NixState
  import opened NixLaws
  import opened NixHistory
  import StorePath

  ghost predicate IsExpectation(e: Event) {
    e.action == "result" && e.typ == SET_EXPECTED && FieldUint(e.fields, 0).Some? && FieldUint(e.fields, 1).Some?
  }

  /** What the activity started at k last expected of type t, before it stopped, within n events. */
  ghost function ExpectedReported(evs: seq<Event>, n: nat, k: nat, t: int): Word
    requires k < n <= |evs|
    decreases n
  {
    if n == k + 1 then 0
    else
      var e := evs[n - 1];
      if IsExpectation(e) && Signed(FieldUint(e.fields, 0).value) == t && Begun(evs, n - 1, e.id) == Some(k)
      then FieldUint(e.fields, 1).value
      else ExpectedReported(evs, n - 1, k, t)
  }

  lemma StartExpects(s: State, e: Event, id: Id, t: int)
    requires Bounded(s) && id in Start(s, e).activities
    ensures ExpectedOf(Start(s, e).activities[id], t) ==
      if id != e.id && id in s.activities then ExpectedOf(s.activities[id], t) else 0
  {
    hide StorePath.Base, TransferTarget, Noted;
    var s1 := Started(s, e.id, e.typ);
    if FieldStr(e.fields, 0).Some? {
      NotedKeepsRest(s1, StorePath.Base(FieldStr(e.fields, 0).value));
    }
  }

  lemma MessageExpects(s: State, msg: string)
    requires Bounded(s)
    ensures Message(s, msg).activities == s.activities
  {
    hide TrimSpace, StorePath.Base, StorePath.NameWithoutDrv;
  }

  /** Only an expectation report of its own activity changes what an activity expects of a type. */
  lemma StepExpects(s: State, e: Event, id: Id, t: int)
    requires Bounded(s) && id in s.activities && id in Step(s, e).activities && !(e.id == id && e.action == "start")
    ensures ExpectedOf(Step(s, e).activities[id], t) ==
      if IsExpectation(e) && e.id == id && Signed(FieldUint(e.fields, 0).value) == t then FieldUint(e.fields, 1).value
      else ExpectedOf(s.activities[id], t)
  {
    hide Start, Message, Released, Retired, UintOr0, Plus, Minus, Signed;
    if e.action == "start" {
      StartExpects(s, e, id, t);
    }
    MessageExpects(s, e.msg);
  }

  lemma LiveMatches(evs: seq<Event>, n: nat, id: Id)
    requires n <= |evs| && FreshIds(evs)
    ensures Begun(evs, n, id).Some? <==> id in After(evs, n).activities
    ensures Begun(evs, n, id).Some? ==>
      After(evs, n).activities[id].typ == evs[Begun(evs, n, id).value].typ &&
      forall c :: Count(After(evs, n).activities[id], c) == Reported(evs, n, Begun(evs, n, id).value, c)
  {
    hide Inv, After, NodeIsBuilt;
    StreamKeepsInv(evs, n);
    assert Matches(evs, n, After(evs, n), id);
  }

  lemma {:induction false} ExpectationIsHistory(evs: seq<Event>, n: nat, id: Id, t: int)
    requires n <= |evs| && FreshIds(evs) && Begun(evs, n, id).Some?
    ensures id in After(evs, n).activities
    ensures ExpectedOf(After(evs, n).activities[id], t) == ExpectedReported(evs, n, Begun(evs, n, id).value, t)
  {
    hide Step, Inv, ExpectedOf, IsExpectation, Signed, FreshIds, Matches, AllMatch;
    LiveMatches(evs, n, id);
    var s, e := After(evs, n - 1), evs[n - 1];
    if Begun(evs, n, id) == Some(n - 1) {
      StartExpects(s, e, id, t);
      StreamKeepsInv(evs, n - 1);
      FreshFromHistory(evs, n - 1, s);
      StartedStep(s, e);
    } else {
      ExpectationIsHistory(evs, n - 1, id, t);
      StepExpects(s, e, id, t);
      if Begun(evs, n - 1, e.id) == Begun(evs, n - 1, id) {
        SameActivity(evs, n - 1, e.id, id);
      }
    }
  }

  lemma StartedStep(s: State, e: Event)
    requires Bounded(s) && e.action == "start"
    ensures Step(s, e) == Start(s, e)
  {
  }

  /** Two ids whose activities were started by the same event are one. */
  lemma SameActivity(evs: seq<Event>, n: nat, a: Id, b: Id)
    requires n <= |evs| && Begun(evs, n, a).Some? && Begun(evs, n, a) == Begun(evs, n, b)
    ensures a == b
  {
    assert evs[Begun(evs, n, a).value].id == a;
  }

  /** The ids whose activities are active after n events. */
  ghost function LiveIds(evs: seq<Event>, n: nat): set<Id>
    requires n <= |evs|
  {
    set k | 0 <= k < n && Begun(evs, n, evs[k].id).Some? :: evs[k].id
  }

  lemma LiveIdsAre(evs: seq<Event>, n: nat)
    requires n <= |evs| && FreshIds(evs)
    ensures LiveIds(evs, n) == After(evs, n).activities.Keys
    ensures forall id :: id in LiveIds(evs, n) ==> Begun(evs, n, id).Some?
  {
    hide After, Reported;
    forall id
      ensures id in LiveIds(evs, n) <==> id in After(evs, n).activities
    {
      LiveMatches(evs, n, id);
      if Begun(evs, n, id).Some? {
        assert evs[Begun(evs, n, id).value].id == id;
      }
    }
  }

  /** The last reports of the active activities of a type. */
  ghost function LiveReports(evs: seq<Event>, n: nat, t: int, c: Counter): map<Id, int>
    requires n <= |evs|
  {
    map id | id in LiveIds(evs, n) && Begun(evs, n, id).Some? && evs[Begun(evs, n, id).value].typ == t ::
      Reported(evs, n, Begun(evs, n, id).value, c)
  }

  /** What the active activities last expected of a type. */
  ghost function LiveExpectations(evs: seq<Event>, n: nat, t: int): map<Id, int>
    requires n <= |evs|
  {
    map id | id in LiveIds(evs, n) && Begun(evs, n, id).Some? ::
      ExpectedReported(evs, n, Begun(evs, n, id).value, t)
  }

  lemma LiveCountsAre(evs: seq<Event>, n: nat, t: int, c: Counter)
    requires n <= |evs| && FreshIds(evs)
    ensures CountsIn(After(evs, n).activities, AggOf(After(evs, n).byType, t).active, c) == LiveReports(evs, n, t, c)
  {
    hide After, Reported, LiveIds, NodeIsBuilt, DrvsIndexed, NamesIndexed, TracksRight, ExpectedRight, Count;
    var s := After(evs, n);
    StreamKeepsInv(evs, n);
    LiveIdsAre(evs, n);
    assert AggOf(s.byType, t).active == ActiveOf(s.activities, t);
    forall id | id in s.activities
      ensures Begun(evs, n, id).Some? && s.activities[id].typ == evs[Begun(evs, n, id).value].typ
      ensures Count(s.activities[id], c) == Reported(evs, n, Begun(evs, n, id).value, c)
    {
      LiveMatches(evs, n, id);
    }
  }

  lemma LiveExpectationsAre(evs: seq<Event>, n: nat, t: int)
    requires n <= |evs| && FreshIds(evs)
    ensures Expectations(After(evs, n).activities, t) == LiveExpectations(evs, n, t)
  {
    hide After, LiveIds, ExpectedOf, ExpectedReported;
    LiveIdsAre(evs, n);
    forall id | id in After(evs, n).activities
      ensures ExpectedOf(After(evs, n).activities[id], t) == ExpectedReported(evs, n, Begun(evs, n, id).value, t)
    {
      ExpectationIsHistory(evs, n, id, t);
    }
  }

  /** What stopped activities of the type left behind. */
  ghost function Settled(evs: seq<Event>, n: nat, t: int, c: Counter): int
    requires n <= |evs|
  {
    TotalReported(evs, n, t, c, n) - SumOf(LiveReports(evs, n, t, c))
  }

  lemma SettledIsLeft(left: int, live: int, total: int)
    requires Wrap(left + live) == Wrap(total)
    ensures Wrap(left) == Wrap(total - live)
  {
  }

  lemma PlusLive(left: Word, settled: int, live: int)
    requires Wrap(left) == Wrap(settled)
    ensures Wrap(left + live) == Wrap(settled + live)
  {
  }

  /**
   All four totals of a type, read off the events: done and failed are the sums over every
   activity ever started, running over the active ones, and expected is the larger of what
   the activities expect of the type and what is done or announced by them themselves.
   */
  lemma TotalsExactly(evs: seq<Event>, n: nat, t: int, r: Totals)
    requires n <= |evs| && FreshIds(evs) && IsAggregate(After(evs, n), t, r)
    ensures r.done == Wrap(TotalReported(evs, n, t, Done, n)) && r.failed == Wrap(TotalReported(evs, n, t, Failed, n))
    ensures r.running == Wrap(SumOf(LiveReports(evs, n, t, Running)))
    ensures var announced := Wrap(Settled(evs, n, t, Done) + SumOf(LiveReports(evs, n, t, Expected)));
      var expected := Wrap(SumOf(LiveExpectations(evs, n, t)));
      r.expected == if expected > announced then expected else announced
  {
    hide After, Wrap, SumOf, TotalReported, LiveReports, LiveExpectations, CountsIn, FreshIds;
    hide DrvsIndexed, NamesIndexed, TracksRight, AllMatch, Expectations;
    var s := After(evs, n);
    AggregateIsHistory(evs, n, t, r);
    StreamKeepsInv(evs, n);
    LiveCountsAre(evs, n, t, Done);
    LiveCountsAre(evs, n, t, Expected);
    LiveCountsAre(evs, n, t, Running);
    LiveExpectationsAre(evs, n, t);
    var left := AggOf(s.byType, t).done;
    SettledIsLeft(left, SumOf(LiveReports(evs, n, t, Done)), TotalReported(evs, n, t, Done, n));
    PlusLive(left, Settled(evs, n, t, Done), SumOf(LiveReports(evs, n, t, Expected)));
  }
}
