/**
 Which derivations a run knows, read off its events: those of the planned listing and
 those a build was started for, in the order in which they are first named.
 */
module NixPlan {
  import opened Options
  import opened Text
  import opened Lines
  import opened NixState
  import opened NixLaws
  import opened NixHistory
  import StorePath
  import TreeView

  ghost predicate IsHeader(e: Event) { e.action == "msg" && HasSuffix(e.msg, "derivations will be built:") }

  ghost predicate NamesDrv(e: Event) {
    e.action == "msg" && HasPrefix(TrimSpace(e.msg), "/nix/store/") && HasSuffix(TrimSpace(e.msg), ".drv")
  }

  /** A header was seen before event n, and every message since then names a derivation. */
  ghost predicate InListing(evs: seq<Event>, n: nat)
    requires n <= |evs|
  {
    exists h :: 0 <= h < n && IsHeader(evs[h]) &&
      forall j :: h < j < n && evs[j].action == "msg" ==> IsHeader(evs[j]) || NamesDrv(evs[j])
  }

  ghost predicate StartsBuildOf(e: Event, drv: Drv) {
    e.action == "start" && e.typ == BUILD && |e.fields| > 0 && e.fields[0].Str? && StorePath.Base(e.fields[0].s) == drv
  }

  /** Event m starts a build of the derivation, or lists it. */
  ghost predicate Names(evs: seq<Event>, m: nat, drv: Drv)
    requires m < |evs|
  {
    StartsBuildOf(evs[m], drv) ||
    (InListing(evs, m) && NamesDrv(evs[m]) && !IsHeader(evs[m]) && StorePath.Base(TrimSpace(evs[m].msg)) == drv)
  }

  ghost predicate NamedBy(evs: seq<Event>, n: nat, drv: Drv)
    requires n <= |evs|
  {
    exists m: nat :: m < n && Names(evs, m, drv)
  }

  lemma ListingStep(evs: seq<Event>, n: nat)
    requires n < |evs|
    ensures InListing(evs, n + 1) <==>
      IsHeader(evs[n]) || (InListing(evs, n) && (evs[n].action == "msg" ==> NamesDrv(evs[n])))
  {
    hide IsHeader, NamesDrv;
    if IsHeader(evs[n]) {
      assert InListing(evs, n + 1);
    }
    if InListing(evs, n) && (evs[n].action == "msg" ==> NamesDrv(evs[n])) {
      var h :| 0 <= h < n && IsHeader(evs[h]) &&
        forall j :: h < j < n && evs[j].action == "msg" ==> IsHeader(evs[j]) || NamesDrv(evs[j]);
      assert InListing(evs, n + 1);
    }
  }

  /** The derivation an event names, given whether a listing is under way. */
  ghost function Noting(e: Event, inPlanned: bool): Option<Drv> {
    if e.action == "start" && e.typ == BUILD && FieldStr(e.fields, 0).Some? then
      Some(StorePath.Base(FieldStr(e.fields, 0).value))
    else if inPlanned && NamesDrv(e) && !IsHeader(e) then Some(StorePath.Base(TrimSpace(e.msg)))
    else None
  }

  /** drvIndex has exactly the known derivations. */
  ghost predicate IndexRight(s: State) { forall d :: d in s.drvIndex <==> d in s.drvs }

  lemma StartListing(s: State, e: Event)
    requires Bounded(s)
    ensures Start(s, e).inPlanned == s.inPlanned
  {
    hide StorePath.Base, StorePath.NameWithoutDrv, TransferTarget;
  }

  lemma StepListing(s: State, e: Event)
    requires Bounded(s)
    ensures Step(s, e).inPlanned <==> IsHeader(e) || (s.inPlanned && (e.action == "msg" ==> NamesDrv(e)))
  {
    hide StorePath.Base, StorePath.NameWithoutDrv, TrimSpace, Released, Retired, UintOr0, Plus, Minus, Start;
    if e.action == "start" {
      StartListing(s, e);
    }
  }

  lemma NotedDrvs(s: State, drv: Drv)
    requires Bounded(s) && IndexRight(s)
    ensures Noted(s, drv).drvs == if drv in s.drvs then s.drvs else s.drvs + [drv]
    ensures IndexRight(Noted(s, drv))
  {
    hide StorePath.NameWithoutDrv;
  }

  ghost function WithDrv(drvs: seq<Drv>, named: Option<Drv>): seq<Drv> {
    if named.Some? && named.value !in drvs then drvs + [named.value] else drvs
  }

  lemma StartDrvs(s: State, e: Event)
    requires Bounded(s) && IndexRight(s) && e.action == "start"
    ensures Start(s, e).drvs == WithDrv(s.drvs, Noting(e, s.inPlanned)) && IndexRight(Start(s, e))
  {
    hide StorePath.Base, StorePath.Name, TrimSpace, Noted, TransferTarget;
    var s1 := Started(s, e.id, e.typ);
    if FieldStr(e.fields, 0).Some? {
      NotedDrvs(s1, StorePath.Base(FieldStr(e.fields, 0).value));
    }
  }

  lemma MessageDrvs(s: State, e: Event)
    requires Bounded(s) && IndexRight(s) && e.action == "msg"
    ensures Message(s, e.msg).drvs == WithDrv(s.drvs, Noting(e, s.inPlanned)) && IndexRight(Message(s, e.msg))
  {
    hide StorePath.Base, TrimSpace, Noted;
    NotedDrvs(s, StorePath.Base(TrimSpace(e.msg)));
  }

  lemma StepDrvs(s: State, e: Event)
    requires Bounded(s) && IndexRight(s)
    ensures Step(s, e).drvs == WithDrv(s.drvs, Noting(e, s.inPlanned)) && IndexRight(Step(s, e))
  {
    hide TrimSpace, Released, Retired, UintOr0, Plus, Minus, Start, Message;
    if e.action == "start" {
      StartDrvs(s, e);
    } else if e.action == "msg" {
      MessageDrvs(s, e);
    }
  }

  ghost predicate Known(evs: seq<Event>, n: nat, s: State)
    requires n <= |evs|
  {
    (s.inPlanned <==> InListing(evs, n)) && IndexRight(s) && forall d :: d in s.drvs <==> NamedBy(evs, n, d)
  }

  lemma NotingNames(evs: seq<Event>, n: nat, d: Drv)
    requires n < |evs|
    ensures Noting(evs[n], InListing(evs, n)) == Some(d) <==> Names(evs, n, d)
    ensures NamedBy(evs, n + 1, d) <==> NamedBy(evs, n, d) || Names(evs, n, d)
  {
    hide StorePath.Base, InListing, TrimSpace;
  }

  lemma KnownStep(evs: seq<Event>, n: nat, s: State)
    requires n < |evs| && Bounded(s) && Known(evs, n, s)
    ensures Known(evs, n + 1, Step(s, evs[n]))
  {
    hide Step, InListing, NamedBy, Names, Noting, IsHeader, NamesDrv;
    StepListing(s, evs[n]);
    ListingStep(evs, n);
    StepDrvs(s, evs[n]);
    forall d
      ensures d in Step(s, evs[n]).drvs <==> NamedBy(evs, n + 1, d)
    {
      NotingNames(evs, n, d);
    }
  }

  lemma {:induction false} KnownAfter(evs: seq<Event>, n: nat)
    requires n <= |evs|
    ensures Known(evs, n, After(evs, n))
  {
    hide Known, Step;
    if n == 0 {
      NothingKnown(evs);
    } else {
      KnownAfter(evs, n - 1);
      KnownStep(evs, n - 1, After(evs, n - 1));
    }
  }

  lemma NothingKnown(evs: seq<Event>)
    ensures Known(evs, 0, After(evs, 0))
  {
  }

  /** After any stream a derivation is known exactly when an event named it: a build start or a line of a listing. */
  lemma KnownExactly(evs: seq<Event>, n: nat, drv: Drv)
    requires n <= |evs|
    ensures drv in After(evs, n).drvs <==> NamedBy(evs, n, drv)
  {
    hide NamedBy, IndexRight, InListing;
    KnownAfter(evs, n);
  }

  /** Event m is the first to name the derivation. */
  ghost predicate FirstNames(evs: seq<Event>, m: nat, drv: Drv)
    requires m < |evs|
  {
    Names(evs, m, drv) && forall k: nat :: k < m ==> !Names(evs, k, drv)
  }

  /** at: for each derivation the event that first named it. */
  ghost predicate FirstNamedAt(evs: seq<Event>, n: nat, drvs: seq<Drv>, at: seq<nat>)
    requires n <= |evs|
  {
    |at| == |drvs| && (forall i, j :: 0 <= i < j < |at| ==> at[i] < at[j]) &&
    forall i :: 0 <= i < |at| ==> at[i] < n && FirstNames(evs, at[i], drvs[i])
  }

  /** Derivations are known in the order in which they were first named, each once. */
  lemma {:induction false} KnownInOrder(evs: seq<Event>, n: nat) returns (at: seq<nat>)
    requires n <= |evs|
    ensures FirstNamedAt(evs, n, After(evs, n).drvs, at)
  {
    hide Step, Names, Noting, NamedBy, FirstNames, InListing, IndexRight;
    if n == 0 {
      at := [];
    } else {
      var s, e := After(evs, n - 1), evs[n - 1];
      at := KnownInOrder(evs, n - 1);
      KnownAfter(evs, n - 1);
      StepDrvs(s, e);
      var named := Noting(e, s.inPlanned);
      if named.Some? && named.value !in s.drvs {
        NotingNames(evs, n - 1, named.value);
        FirstNamed(evs, n - 1, named.value);
        at := at + [n - 1];
      }
    }
  }

  lemma FirstNamed(evs: seq<Event>, m: nat, drv: Drv)
    requires m < |evs| && Names(evs, m, drv) && !NamedBy(evs, m, drv)
    ensures FirstNames(evs, m, drv)
  {
    hide Names;
  }

  /** A node is drawn as active, for the bytes of encodeDrvStates, exactly when an active activity is attached to it. */
  lemma ActiveExactly(evs: seq<Event>, n: nat, bytes: seq<nat>, i: nat)
    requires n <= |evs| && FreshIds(evs) && i < |After(evs, n).track| == |bytes|
    requires bytes[i] == TrackState(After(evs, n).track[i])
    ensures TreeView.Active(bytes, i) <==>
      exists id :: id in After(evs, n).activities && After(evs, n).activities[id].node == i
  {
    hide After, BuildStopped, TrackState;
    RenderedDoneExactly(evs, n, i);
    var activities := After(evs, n).activities;
    if BuildsAt(activities, i) != {} {
      var id := AnyElement(BuildsAt(activities, i));
    }
    if TransfersAt(activities, i) != {} {
      var id := AnyElement(TransfersAt(activities, i));
    }
    if id :| id in activities && activities[id].node == i {
      assert id in BuildsAt(activities, i) + TransfersAt(activities, i);
    }
  }
}
