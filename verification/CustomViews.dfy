/**
 Custom collections projected onto systems (customViewsBySystem of
 pkgs/arcade-webapp/internal/generate/generate.go).

 Go visits a map's keys in any order; the loops here do too.
 */
module CustomViews {
  import opened Text
  import opened LauncherFile

  datatype Member = Member(sys: string, rel: string)

  datatype CustomCollection = CustomCollection(title: string, shortname: string, summary: string, members: seq<Member>)

  /** The paths of one system among the members. */
  function PathsIn(members: seq<Member>, sys: string): set<string> {
    set m | m in members && m.sys == sys :: m.rel
  }

  function ViewOf(c: CustomCollection, sys: string): CustomView {
    CustomView(c.title, c.shortname, c.summary, PathsIn(c.members, sys))
  }

  /** The views of a system in collection order: one per collection with a member there. */
  function ViewsFor(colls: seq<CustomCollection>, sys: string): seq<CustomView> {
    if colls == [] then []
    else
      var last := colls[|colls| - 1];
      ViewsFor(colls[..|colls| - 1], sys) + if PathsIn(last.members, sys) == {} then [] else [ViewOf(last, sys)]
  }

  /** A system's views are those of the collections with a member there, each with its own texts and paths. */
  lemma {:induction false} ViewsForExactly(colls: seq<CustomCollection>, sys: string, v: CustomView)
    ensures v in ViewsFor(colls, sys) <==>
      exists c :: c in colls && v.title == c.title && v.shortname == c.shortname && v.summary == c.summary &&
        (forall rel :: rel in v.members <==> Member(sys, rel) in c.members) && v.members != {}
  {
    if colls != [] {
      var rest, last := colls[..|colls| - 1], colls[|colls| - 1];
      ViewsForExactly(rest, sys, v);
      assert colls == rest + [last];
      assert forall rel :: rel in PathsIn(last.members, sys) <==> Member(sys, rel) in last.members;
      if v.title == last.title && v.shortname == last.shortname && v.summary == last.summary &&
        (forall rel :: rel in v.members <==> Member(sys, rel) in last.members) {
        assert v.members == PathsIn(last.members, sys);
        assert v == ViewOf(last, sys);
      }
    }
  }

  type Views = map<string, seq<CustomView>>

  function Lookup(out: Views, sys: string): seq<CustomView> { if sys in out then out[sys] else [] }

  ghost predicate NoEmptyEntry(out: Views) { forall sys :: sys in out ==> out[sys] != [] }

  ghost predicate Collected(out: Views, colls: seq<CustomCollection>) {
    NoEmptyEntry(out) && forall sys :: Lookup(out, sys) == ViewsFor(colls, sys)
  }

  ghost predicate Groups(bySys: map<string, set<string>>, members: seq<Member>) {
    forall sys :: (sys in bySys <==> PathsIn(members, sys) != {}) &&
      (sys in bySys ==> bySys[sys] == PathsIn(members, sys))
  }

  /** bySys: a collection's paths by system. */
  method GroupMembers(members: seq<Member>) returns (bySys: map<string, set<string>>)
    ensures Groups(bySys, members)
  {
    bySys := map[];
    for n := 0 to |members|
      invariant Groups(bySys, members[..n])
    {
      var m := members[n];
      OneMemberMore(members, n);
      bySys := bySys[m.sys := (if m.sys in bySys then bySys[m.sys] else {}) + {m.rel}];
    }
    assert members[..|members|] == members;
  }

  lemma OneMemberMore(members: seq<Member>, n: nat)
    requires n < |members|
    ensures forall sys :: PathsIn(members[..n + 1], sys) == PathsIn(members[..n], sys) + PathsIn([members[n]], sys)
  {
    assert members[..n + 1] == members[..n] + [members[n]];
  }

  /** The loop over one collection's systems. */
  method AddViews(out0: Views, c: CustomCollection, bySys: map<string, set<string>>, ghost colls: seq<CustomCollection>)
    returns (out: Views)
    requires Collected(out0, colls) && Groups(bySys, c.members)
    ensures Collected(out, colls + [c])
  {
    hide PathsIn, ViewsFor, AddedFor, Lookup, ViewOf, Groups;
    out := out0;
    var todo := bySys.Keys;
    ghost var done: set<string> := {};
    NothingAdded(out0, c);
    while todo != {}
      invariant todo + done == bySys.Keys && todo !! done
      invariant AddedFor(out, out0, c, done)
      decreases |todo|
    {
      var sys :| sys in todo;
      var view := CustomView(c.title, c.shortname, c.summary, bySys[sys]);
      assert view == ViewOf(c, sys) by {
        GroupedView(bySys, c, sys);
      }
      AddedOne(out, out0, c, done, sys);
      out := out[sys := Lookup(out, sys) + [view]];
      todo, done := todo - {sys}, done + {sys};
    }
    AllAdded(out, out0, c, bySys, colls);
  }

  lemma GroupedView(bySys: map<string, set<string>>, c: CustomCollection, sys: string)
    requires Groups(bySys, c.members) && sys in bySys
    ensures CustomView(c.title, c.shortname, c.summary, bySys[sys]) == ViewOf(c, sys)
  {
    hide PathsIn;
  }

  /** The view of c has been appended for these systems and nothing else changed. */
  ghost predicate AddedFor(out: Views, out0: Views, c: CustomCollection, done: set<string>) {
    NoEmptyEntry(out) &&
    forall sys :: Lookup(out, sys) == Lookup(out0, sys) + if sys in done then [ViewOf(c, sys)] else []
  }

  lemma NothingAdded(out0: Views, c: CustomCollection)
    requires NoEmptyEntry(out0)
    ensures AddedFor(out0, out0, c, {})
  {
  }

  lemma AddedOne(out: Views, out0: Views, c: CustomCollection, done: set<string>, sys: string)
    requires AddedFor(out, out0, c, done) && sys !in done
    ensures AddedFor(out[sys := Lookup(out, sys) + [ViewOf(c, sys)]], out0, c, done + {sys})
  {
    hide PathsIn, ViewOf;
  }

  lemma AllAdded(out: Views, out0: Views, c: CustomCollection, bySys: map<string, set<string>>,
                 colls: seq<CustomCollection>)
    requires AddedFor(out, out0, c, bySys.Keys) && Collected(out0, colls) && Groups(bySys, c.members)
    ensures Collected(out, colls + [c])
  {
    hide PathsIn, ViewsFor;
    forall sys
      ensures Lookup(out, sys) == ViewsFor(colls + [c], sys)
    {
      OneCollectionMore(colls, c, sys);
    }
  }

  lemma OneCollectionMore(colls: seq<CustomCollection>, c: CustomCollection, sys: string)
    ensures ViewsFor(colls + [c], sys) ==
      ViewsFor(colls, sys) + if PathsIn(c.members, sys) == {} then [] else [ViewOf(c, sys)]
  {
    assert (colls + [c])[..|colls|] == colls;
  }

  /** Every system with a member has its views sorted by shortname, and no other system has any. */
  method CustomViewsBySystem(colls: seq<CustomCollection>) returns (out: Views)
    ensures forall sys :: sys in out <==> ViewsFor(colls, sys) != []
    ensures forall sys :: sys in out ==> IsSortedView(out[sys], ViewsFor(colls, sys))
  {
    hide ViewsFor;
    out := map[];
    NothingCollected();
    for n := 0 to |colls|
      invariant Collected(out, colls[..n])
    {
      var bySys := GroupMembers(colls[n].members);
      assert colls[..n + 1] == colls[..n] + [colls[n]];
      out := AddViews(out, colls[n], bySys, colls[..n]);
    }
    assert colls[..|colls|] == colls;
    assert forall sys :: sys in out <==> Lookup(out, sys) != [];
    var unsorted := out;
    var todo := unsorted.Keys;
    while todo != {}
      invariant out.Keys == unsorted.Keys && todo <= out.Keys
      invariant forall sys :: sys in todo ==> out[sys] == unsorted[sys]
      invariant forall sys :: sys in out && sys !in todo ==> IsSortedView(out[sys], unsorted[sys])
      decreases |todo|
    {
      var sys :| sys in todo;
      todo := todo - {sys};
      var sorted := SortByKey(out[sys], (v: CustomView) => v.shortname);
      out := out[sys := sorted];
    }
  }

  lemma NothingCollected()
    ensures Collected(map[], [])
  {
  }

  ghost predicate IsSortedView(views: seq<CustomView>, of: seq<CustomView>) {
    multiset(views) == multiset(of) && SortedBy(views, (v: CustomView) => v.shortname)
  }

  ghost predicate DistinctShortnames(views: seq<CustomView>) {
    forall j, k :: 0 <= j < k < |views| ==> views[j].shortname != views[k].shortname
  }

  /** Shortnames being unique, the order does not depend on how the sort breaks ties: the output is byte-stable. */
  lemma {:induction false} ViewOrderIsUnique(a: seq<CustomView>, b: seq<CustomView>, of: seq<CustomView>)
    requires IsSortedView(a, of) && IsSortedView(b, of) && DistinctShortnames(a) && DistinctShortnames(b)
    ensures a == b
    decreases |a|
  {
    assert |a| == |multiset(a)| == |multiset(b)| == |b|;
    if a != [] {
      hide DistinctShortnames;
      FirstIsSame(a, b);
      TailDistinct(a);
      TailDistinct(b);
      assert a == [a[0]] + a[1..] && b == [b[0]] + b[1..];
      assert multiset(a[1..]) == multiset(a) - multiset{a[0]};
      assert multiset(b[1..]) == multiset(b) - multiset{b[0]};
      ViewOrderIsUnique(a[1..], b[1..], a[1..]);
    }
  }

  lemma TailDistinct(a: seq<CustomView>)
    requires a != [] && DistinctShortnames(a)
    ensures DistinctShortnames(a[1..])
  {
  }

  lemma FirstIsSame(a: seq<CustomView>, b: seq<CustomView>)
    requires a != [] && b != [] && multiset(a) == multiset(b) && DistinctShortnames(a) && DistinctShortnames(b)
    requires SortedBy(a, (v: CustomView) => v.shortname) && SortedBy(b, (v: CustomView) => v.shortname)
    ensures a[0] == b[0]
  {
    assert a[0] in multiset(b) && b[0] in multiset(a);
    var i :| 0 <= i < |b| && b[i] == a[0];
    var j :| 0 <= j < |a| && a[j] == b[0];
    assert i > 0 ==> AtMost(b[0].shortname, b[i].shortname);
    assert j > 0 ==> AtMost(a[0].shortname, a[j].shortname);
    BeforeTotal(a[0].shortname, b[0].shortname);
  }
}
