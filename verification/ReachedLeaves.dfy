/** Which leaf sections a run enters, read off the test body: where a section's own statements end in a
    throw, the sections inside it are run only until one of them comes to its end. */
module ReachedLeaves {
  import opened TrackerStates
  import opened SectionRuns
  import opened ThrowingRuns
  import opened RunPlans

  /** Leaf sections of the sections of a body that are run, left to right; with untilQuiet only up to the
      first pass that no exception leaves. */
  function ReachedKids(q: Path, body: Body, untilQuiet: bool): seq<Path>
    decreases body, 0
  {
    match body
    case Section(name, inner, rest) =>
      if untilQuiet && !EndsInThrow(inner) then ReachedAt(q + [name], inner, true)
      else ReachedAt(q + [name], inner, false) + ReachedKids(q, rest, untilQuiet)
    case _ => []
  }

  function ReachedAt(p: Path, inner: Body, untilQuiet: bool): seq<Path>
    decreases inner, 1
  {
    if inner.Section? then ReachedKids(p, inner, untilQuiet || EndsInThrow(inner)) else [p]
  }

  /** No section with sections inside has its own statements end in a throw. */
  predicate OnlyLeavesThrow(body: Body) {
    match body
    case Section(_, inner, rest) =>
      (inner.Section? ==> !EndsInThrow(inner)) && OnlyLeavesThrow(inner) && OnlyLeavesThrow(rest)
    case _ => true
  }

  /** Then every leaf is reached. */
  lemma {:induction false} AllAreReached(q: Path, body: Body)
    requires OnlyLeavesThrow(body)
    ensures ReachedKids(q, body, false) == KidLeaves(q, body)
    decreases body
  {
    if body.Section? {
      AllAreReached(q + [body.name], body.inner);
      AllAreReached(q, body.rest);
    }
  }

  // Visits of a path on the passes of a plan

  function Visits(passes: seq<Pass>, p: Path): nat {
    if passes == [] then 0 else multiset(passes[0].trail)[p] + Visits(passes[1..], p)
  }

  lemma {:induction false} VisitsAppend(a: seq<Pass>, b: seq<Pass>, p: Path)
    ensures Visits(a + b, p) == Visits(a, p) + Visits(b, p)
  {
    if a == [] {
      assert a + b == b;
    } else {
      VisitsAppend(a[1..], b, p);
      assert (a + b)[1..] == a[1..] + b;
    }
  }

  lemma {:induction false} VisitsOfTrailed(passes: seq<Pass>, p: Path)
    ensures multiset(Trailed(passes))[p] == Visits(passes, p)
  {
    if passes != [] {
      var init, last := passes[..|passes| - 1], passes[|passes| - 1];
      VisitsOfTrailed(init, p);
      CountAppend(Trailed(init), last.trail, p);
      VisitsAppend(init, [last], p);
      assert init + [last] == passes;
    }
  }

  lemma {:induction false} VisitsEntered(x: Path, passes: seq<Pass>, p: Path)
    ensures Visits(EnterAll(x, passes), p) == Visits(passes, p) + (if x == p then |passes| else 0)
  {
    if passes != [] {
      VisitsEntered(x, passes[1..], p);
      assert EnterAll(x, passes)[1..] == EnterAll(x, passes[1..]);
      CountAppend([x], passes[0].trail, p);
    }
  }

  /** Up to and with the first pass that no exception leaves. */
  function FirstQuiet(passes: seq<Pass>): seq<Pass> {
    if passes == [] then []
    else if passes[0].thrown then [passes[0]] + FirstQuiet(passes[1..])
    else [passes[0]]
  }

  predicate AllThrown(passes: seq<Pass>) {
    passes == [] || (passes[0].thrown && AllThrown(passes[1..]))
  }

  lemma {:induction false} FirstQuietAppend(a: seq<Pass>, b: seq<Pass>)
    ensures FirstQuiet(a + b) == if AllThrown(a) then a + FirstQuiet(b) else FirstQuiet(a)
  {
    if a == [] {
      assert a + b == b;
    } else {
      assert (a + b)[1..] == a[1..] + b;
      FirstQuietAppend(a[1..], b);
      assert (a + b)[0] == a[0] && [a[0]] + (a[1..] + FirstQuiet(b)) == a + FirstQuiet(b);
    }
  }

  lemma {:induction false} FirstQuietEntered(x: Path, passes: seq<Pass>)
    ensures FirstQuiet(EnterAll(x, passes)) == EnterAll(x, FirstQuiet(passes))
    ensures AllThrown(EnterAll(x, passes)) <==> AllThrown(passes)
  {
    if passes != [] {
      FirstQuietEntered(x, passes[1..]);
      assert EnterAll(x, passes)[1..] == EnterAll(x, passes[1..]);
    }
  }

  /** A section that throws of itself does so on every pass, and visits what its sections do until one of them
      does not throw. */
  lemma {:induction false} ThrownVisits(kids: seq<Pass>, p: Path)
    ensures AllThrown(UntilThrown(kids))
    ensures Visits(UntilThrown(kids), p) == Visits(FirstQuiet(kids), p)
  {
    if kids != [] && kids[0].thrown {
      ThrownVisits(kids[1..], p);
    }
  }

  /** A section that comes to its end does so on its last pass, and visits all that its sections do. */
  lemma {:induction false} ClosedVisits(kids: seq<Pass>, p: Path)
    ensures !AllThrown(UntilClosed(kids))
    ensures Visits(UntilClosed(kids), p) == Visits(kids, p)
    ensures Visits(FirstQuiet(UntilClosed(kids)), p) == Visits(FirstQuiet(kids), p)
  {
    if kids != [] && !(|kids| == 1 && !kids[0].thrown) {
      ClosedVisits(kids[1..], p);
      assert UntilClosed(kids)[1..] == UntilClosed(kids[1..]);
    }
  }

  /** p is the path of a section that has sections inside. */
  predicate IsInner(q: Path, body: Body, p: Path)
    decreases body
  {
    match body
    case Section(name, inner, rest) =>
      (inner.Section? && p == q + [name]) || IsInner(q + [name], inner, p) || IsInner(q, rest, p)
    case _ => false
  }

  lemma {:induction false} KidsReached(q: Path, body: Body, p: Path)
    requires !IsInner(q, body, p)
    ensures Visits(KidsPlan(q, body), p) == multiset(ReachedKids(q, body, false))[p]
    ensures Visits(FirstQuiet(KidsPlan(q, body)), p) == multiset(ReachedKids(q, body, true))[p]
    decreases body, 0
  {
    if body.Section? {
      var x, inner, rest := q + [body.name], body.inner, body.rest;
      var first, later := EnterAll(x, Plan(x, inner)), KidsPlan(q, rest);
      SectionReached(x, inner, p);
      KidsReached(q, rest, p);
      VisitsAppend(first, later, p);
      FirstQuietAppend(first, later);
      VisitsAppend(first, FirstQuiet(later), p);
      CountAppend(ReachedAt(x, inner, false), ReachedKids(q, rest, false), p);
      CountAppend(ReachedAt(x, inner, false), ReachedKids(q, rest, true), p);
    }
  }

  lemma SectionReached(x: Path, inner: Body, p: Path)
    requires (inner.Section? ==> p != x) && !IsInner(x, inner, p)
    ensures
      var passes := EnterAll(x, Plan(x, inner));
      && Visits(passes, p) == multiset(ReachedAt(x, inner, false))[p]
      && (AllThrown(passes) <==> EndsInThrow(inner))
      && (!EndsInThrow(inner) ==> Visits(FirstQuiet(passes), p) == multiset(ReachedAt(x, inner, true))[p])
    decreases inner, 1
  {
    var kids := KidsPlan(x, inner);
    KidsReached(x, inner, p);
    VisitsEntered(x, Plan(x, inner), p);
    FirstQuietEntered(x, Plan(x, inner));
    VisitsEntered(x, FirstQuiet(Plan(x, inner)), p);
    ThrownVisits(kids, p);
    ClosedVisits(kids, p);
  }

  // Leaves are visited once

  lemma {:induction false} LeafIsNotInner(q: Path, body: Body, p: Path)
    requires Distinct(body) && p in KidLeaves(q, body)
    ensures !IsInner(q, body, p)
    decreases body
  {
    if body.Section? {
      var x, inner, rest := q + [body.name], body.inner, body.rest;
      UnderSelf(q, body.name, rest);
      LeafUnderChild(q, body.name, inner);
      LeavesUnder(q, rest);
      LeavesUnder(x, inner);
      InnerUnder(x, inner, p);
      InnerUnder(q, rest, p);
      UnderChild(q, body.name, Names(inner));
      if p in LeafPaths(x, inner) {
        if inner.Section? {
          LeafIsNotInner(x, inner, p);
        }
      } else {
        LeafIsNotInner(q, rest, p);
      }
    }
  }

  lemma {:induction false} InnerUnder(q: Path, body: Body, p: Path)
    ensures IsInner(q, body, p) ==> Under(q, Names(body), p)
    decreases body
  {
    if body.Section? {
      UnderSelf(q, body.name, body.rest);
      UnderChild(q, body.name, Names(body.inner));
      InnerUnder(q + [body.name], body.inner, p);
      InnerUnder(q, body.rest, p);
    }
  }

  /** What is reached are leaves, each at most as often as it is one. */
  lemma {:induction false} ReachedAreLeaves(q: Path, body: Body, untilQuiet: bool, p: Path)
    ensures multiset(ReachedKids(q, body, untilQuiet))[p] <= multiset(KidLeaves(q, body))[p]
    decreases body
  {
    if body.Section? {
      var x, inner, rest := q + [body.name], body.inner, body.rest;
      var quiet := untilQuiet && !EndsInThrow(inner);
      ReachedAreLeaves(x, inner, quiet || EndsInThrow(inner), p);
      ReachedAreLeaves(q, rest, untilQuiet, p);
      CountAppend(LeafPaths(x, inner), KidLeaves(q, rest), p);
      CountAppend(ReachedAt(x, inner, false), ReachedKids(q, rest, untilQuiet), p);
    }
  }

  lemma {:induction false} DistinctOnce(paths: seq<Path>, p: Path)
    requires forall i, j | 0 <= i < j < |paths| :: paths[i] != paths[j]
    ensures multiset(paths)[p] <= 1
  {
    if paths != [] {
      var init := paths[..|paths| - 1];
      DistinctOnce(init, p);
      CountAppend(init, [paths[|paths| - 1]], p);
      assert init + [paths[|paths| - 1]] == paths;
      assert p in init <==> multiset(init)[p] > 0;
    }
  }

  /** The plan of a run enters each leaf that is reached once and no other leaf. */
  lemma PlanEntersReachedLeaves(t: NameAndLocation, body: Body, p: Path)
    requires Distinct(body) && p in KidLeaves([t], body)
    ensures multiset(Trailed(RunPlan(t, body)))[p] == if p in ReachedKids([t], body, false) then 1 else 0
  {
    var reached := ReachedKids([t], body, false);
    LeafIsNotInner([t], body, p);
    KidsReached([t], body, p);
    ClosedVisits(KidsPlan([t], body), p);
    VisitsOfTrailed(RunPlan(t, body), p);
    LeavesDistinct([t], body);
    DistinctOnce(KidLeaves([t], body), p);
    ReachedAreLeaves([t], body, false, p);
    assert p in reached <==> multiset(reached)[p] > 0;
  }
}
