/** What a run does, computed from the test body alone: the passes the rerun loop makes, whatever throws,
    and the leaf sections they reach. */
module RunPlans {
  import opened TrackerStates
  import opened SectionRuns
  import opened ThrowingRuns

  /** One pass through a section: the sections entered on the way, and whether an exception leaves it. */
  datatype Pass = Pass(trail: seq<Path>, thrown: bool)

  predicate EndsInThrow(body: Body) {
    match body
    case End => false
    case Throw => true
    case Section(_, _, rest) => EndsInThrow(rest)
  }

  function Enter(p: Path, pass: Pass): Pass {
    Pass([p] + pass.trail, pass.thrown)
  }

  function EnterAll(p: Path, passes: seq<Pass>): (all: seq<Pass>)
    ensures |all| == |passes|
    ensures forall i | 0 <= i < |passes| :: all[i] == Enter(p, passes[i])
  {
    seq(|passes|, i requires 0 <= i < |passes| => Enter(p, passes[i]))
  }

  /** The passes of a section whose own statements end in a throw: each runs into it as soon as the sections
      inside leave it to, and that is the last. */
  function UntilThrown(kids: seq<Pass>): (passes: seq<Pass>)
    ensures passes != []
  {
    if kids == [] then [Pass([], true)]
    else if kids[0].thrown then [kids[0]] + UntilThrown(kids[1..])
    else [kids[0].(thrown := true)]
  }

  /** The passes of a section whose own statements come to their end: it closes with the last section inside
      if that does not throw, else with one more pass. */
  function UntilClosed(kids: seq<Pass>): (passes: seq<Pass>)
    ensures passes != []
  {
    if kids == [] then [Pass([], false)]
    else if |kids| == 1 && !kids[0].thrown then kids
    else [kids[0]] + UntilClosed(kids[1..])
  }

  function Passes(inner: Body, kids: seq<Pass>): (passes: seq<Pass>)
    ensures passes != []
  {
    if EndsInThrow(inner) then UntilThrown(kids) else UntilClosed(kids)
  }

  /** The passes of a section with this body. */
  function Plan(p: Path, inner: Body): (passes: seq<Pass>)
    ensures passes != []
    decreases inner, 1
  {
    Passes(inner, KidsPlan(p, inner))
  }

  /** The passes of the sections of a body, one section after the other. */
  function KidsPlan(q: Path, body: Body): seq<Pass>
    decreases body, 0
  {
    match body
    case Section(name, inner, rest) => EnterAll(q + [name], Plan(q + [name], inner)) + KidsPlan(q, rest)
    case _ => []
  }

  /** The cycles of a test case, which is closed whether or not an exception reaches it. */
  function RunPlan(t: NameAndLocation, body: Body): (passes: seq<Pass>)
    ensures passes != []
  {
    UntilClosed(KidsPlan([t], body))
  }

  /** All the sections entered, in order. */
  function Trailed(passes: seq<Pass>): seq<Path> {
    if passes == [] then [] else Trailed(passes[..|passes| - 1]) + passes[|passes| - 1].trail
  }

  // What is left of the plan in a state of the trackers

  ghost function Left(c: Context, p: Path, inner: Body): (passes: seq<Pass>)
    ensures passes != []
    decreases inner, 1
  {
    Passes(inner, KidsLeft(c, p, inner))
  }

  ghost function KidsLeft(c: Context, q: Path, body: Body): seq<Pass>
    decreases body, 0
  {
    match body
    case Section(name, inner, rest) =>
      (if c.IsComplete(q + [name]) then [] else EnterAll(q + [name], Left(c, q + [name], inner))) + KidsLeft(c, q, rest)
    case _ => []
  }

  lemma {:induction false} KidsLeftFrame(c: Context, c': Context, q: Path, body: Body)
    requires forall p | Under(q, Names(body), p) :: c'.Status(p) == c.Status(p)
    ensures KidsLeft(c', q, body) == KidsLeft(c, q, body)
    decreases body
  {
    if body.Section? {
      var child := q + [body.name];
      UnderSelf(q, body.name, body.rest);
      UnderChild(q, body.name, Names(body.inner));
      assert c'.IsComplete(child) == c.IsComplete(child);
      KidsLeftFrame(c, c', child, body.inner);
      KidsLeftFrame(c, c', q, body.rest);
    }
  }

  lemma {:induction false} FreshKidsLeft(c: Context, q: Path, body: Body)
    requires KidsFresh(c, q, body)
    ensures KidsLeft(c, q, body) == KidsPlan(q, body)
    decreases body
  {
    if body.Section? {
      var child := q + [body.name];
      UnderSelf(q, body.name, body.rest);
      UnderChild(q, body.name, Names(body.inner));
      assert c.Get(child) == FRESH;
      FreshKidsLeft(c, child, body.inner);
      FreshKidsLeft(c, q, body.rest);
    }
  }

  /** Nothing is left exactly when every section of the body is complete. */
  lemma {:induction false} NothingLeft(c: Context, q: Path, body: Body)
    ensures KidsLeft(c, q, body) == [] <==> forall name | name in Names(body) :: c.IsComplete(q + [name])
    decreases body
  {
    if body.Section? {
      NothingLeft(c, q, body.rest);
      assert Names(body) == [body.name] + Names(body.rest);
      assert body.name in Names(body);
    }
  }

  // Which children are registered

  ghost predicate Knows(c: Context, q: Path, names: seq<NameAndLocation>) {
    forall name | name in c.Children(q) :: name in names
  }

  /** No tracker at or below the sections of a body has a child that its own body does not have. */
  ghost predicate KidsKnown(c: Context, q: Path, body: Body)
    decreases body
  {
    body.Section? ==>
      && Knows(c, q + [body.name], Names(body.inner))
      && KidsKnown(c, q + [body.name], body.inner)
      && KidsKnown(c, q, body.rest)
  }

  lemma {:induction false} KidsKnownFrame(c: Context, c': Context, q: Path, body: Body)
    requires KidsKnown(c, q, body)
    requires forall p | Under(q, Names(body), p) :: c'.Children(p) == c.Children(p)
    ensures KidsKnown(c', q, body)
    decreases body
  {
    if body.Section? {
      var child := q + [body.name];
      UnderSelf(q, body.name, body.rest);
      UnderChild(q, body.name, Names(body.inner));
      assert c'.Children(child) == c.Children(child);
      KidsKnownFrame(c, c', child, body.inner);
      KidsKnownFrame(c, c', q, body.rest);
    }
  }

  lemma {:induction false} FreshKidsKnown(c: Context, q: Path, body: Body)
    requires KidsFresh(c, q, body)
    ensures KidsKnown(c, q, body)
    decreases body
  {
    if body.Section? {
      var child := q + [body.name];
      UnderSelf(q, body.name, body.rest);
      UnderChild(q, body.name, Names(body.inner));
      assert c.Get(child) == FRESH;
      FreshKidsKnown(c, child, body.inner);
      FreshKidsKnown(c, q, body.rest);
    }
  }

  /** q's children are those it had and some sections of the body. */
  ghost predicate Registers(c: Context, c': Context, q: Path, names: seq<NameAndLocation>) {
    && (forall name | name in c'.Children(q) :: name in c.Children(q) || name in names)
    && (forall name | name in c.Children(q) :: name in c'.Children(q))
  }

  ghost predicate Registered(c: Context, q: Path, names: seq<NameAndLocation>) {
    forall name | name in names :: name in c.Children(q)
  }

  /** After the cycle has completed, what is left of a body registers its sections and ends as it ends. */
  lemma {:induction false} RestIsRegistered(r: Run, q: Path, body: Body)
    requires Distinct(body)
    requires r.ctx.current == q && r.ctx.runState == CompletedCycle
    requires KidsFresh(r.ctx, q, body)
    ensures r.Exec(body).1 == EndsInThrow(body)
    ensures Registers(r.ctx, r.Exec(body).0.ctx, q, Names(body)) && Registered(r.Exec(body).0.ctx, q, Names(body))
    decreases body
  {
    if body.Section? {
      var name, child := body.name, q + [body.name];
      UnderSelf(q, name, body.rest);
      assert r.ctx.Get(child) == FRESH;
      var r1 := r.SectionStarted(name);
      assert !r.Included(name);
      assert forall p | Under(q, Names(body.rest), p) :: Under(q, Names(body), p) && p != q;
      RestIsRegistered(r1, q, body.rest);
      assert Names(body) == [name] + Names(body.rest);
      assert name in r1.ctx.Children(q);
    }
  }

  // One pass

  /** q will not be closed as complete: it is marked, or has a child that is not complete. */
  ghost predicate StaysOpen(c: Context, q: Path) {
    || c.Status(q) == NeedsAnotherRun
    || (c.Status(q) == ExecutingChildren && exists name | name in c.Children(q) :: !c.IsComplete(q + [name]))
  }

  /** r' is r after q's sections were passed as the plan's next pass says. */
  ghost predicate Follows(r: Run, r': Run, q: Path, names: seq<NameAndLocation>, pass: Pass) {
    && r'.entered == r.entered + pass.trail
    && (r'.unfinished > 0 <==> pass.thrown)
    && if pass.thrown then StaysOpen(r'.ctx, q)
       else r'.ctx.Status(q) == ExecutingChildren && Registered(r'.ctx, q, names)
  }

  /** The passage through the sections of a body is the next of the passes left, if there is one. */
  ghost predicate Advances(r: Run, r': Run, thrown: bool, q: Path, body: Body) {
    var left := KidsLeft(r.ctx, q, body);
    && KidsKnown(r'.ctx, q, body)
    && Registers(r.ctx, r'.ctx, q, Names(body))
    && if left == [] then Quiet(r, r') && thrown == EndsInThrow(body)
       else && Follows(r, r', q, Names(body), left[0])
            && KidsLeft(r'.ctx, q, body) == left[1..]
            && thrown == (left[0].thrown || EndsInThrow(body))
  }

  lemma {:induction false} ExecAdvances(r: Run, q: Path, body: Body)
    requires Distinct(body) && Ready(r, q, body) && KidsKnown(r.ctx, q, body)
    ensures Advances(r, r.Exec(body).0, r.Exec(body).1, q, body)
    decreases body, 2
  {
    if body.Section? {
      if r.ctx.IsComplete(q + [body.name]) {
        PassOver(r, q, body);
      } else {
        PassThrough(r, q, body);
      }
    }
  }

  /** A complete section is passed over. */
  lemma PassOver(r: Run, q: Path, body: Body)
    requires Distinct(body) && body.Section? && Ready(r, q, body) && KidsKnown(r.ctx, q, body)
    requires r.ctx.IsComplete(q + [body.name])
    ensures Advances(r, r.Exec(body).0, r.Exec(body).1, q, body)
    decreases body, 1
  {
    var name, rest := body.name, body.rest;
    var child := q + [name];
    UnderSelf(q, name, rest);
    var r1 := r.SectionStarted(name);
    assert !r.Included(name) && (forall p | p != q :: r1.ctx.Get(p) == r.ctx.Get(p));
    KidsOkFrame(r.ctx, r1.ctx, q, rest);
    KidsKnownFrame(r.ctx, r1.ctx, q, rest);
    KidsLeftFrame(r.ctx, r1.ctx, q, rest);
    ExecAdvances(r1, q, rest);
    var more := ExecProgress(r1, q, rest);
    PassedOver(r, r1, r1.Exec(rest).0, r1.Exec(rest).1, q, body);
  }

  lemma PassedOver(r: Run, r1: Run, r': Run, thrown: bool, q: Path, body: Body)
    requires Distinct(body) && body.Section? && r.ctx.IsComplete(q + [body.name]) && KidsKnown(r.ctx, q, body)
    requires r1 == r.(ctx := r1.ctx) && r1.ctx == r.ctx.(trackers := r1.ctx.trackers)
    requires (forall p | p != q :: r1.ctx.Get(p) == r.ctx.Get(p)) && r1.ctx.Status(q) == r.ctx.Status(q)
    requires Registers(r.ctx, r1.ctx, q, [body.name]) && body.name in r1.ctx.Children(q)
    requires KidsLeft(r1.ctx, q, body.rest) == KidsLeft(r.ctx, q, body.rest)
    requires Advances(r1, r', thrown, q, body.rest) && Framed(r1, r', q, body.rest)
    ensures Advances(r, r', thrown, q, body)
  {
    var child := q + [body.name];
    assert Names(body) == [body.name] + Names(body.rest);
    assert r1.ctx.Status(child) == r.ctx.Status(child);
    CompleteIsKept(r.ctx, r1.ctx, r'.ctx, q, body);
    SplitLeft(r.ctx, q, body);
    SplitLeft(r'.ctx, q, body);
    assert forall p :: r1.ctx.Status(p) == r.ctx.Status(p);
    hide KidsLeft, KidsKnown, OnlyUnder, Framed, Distinct, Names, EndsInThrow, StaysOpen;
  }

  /** What lies at and below a complete section is as it was. */
  lemma CompleteIsKept(c: Context, c1: Context, c': Context, q: Path, body: Body)
    requires Distinct(body) && body.Section? && c.IsComplete(q + [body.name]) && KidsKnown(c, q, body)
    requires (forall p | p != q :: c1.Get(p) == c.Get(p)) && OnlyUnder(c1, c', q, Names(body.rest))
    requires KidsKnown(c', q, body.rest)
    ensures KidsKnown(c', q, body) && c'.IsComplete(q + [body.name])
  {
    var name, rest, child := body.name, body.rest, q + [body.name];
    UnderSelf(q, name, rest);
    UnderChild(q, name, Names(body.inner));
    assert forall p | Under(q, [name], p) :: p != q && !Under(q, Names(rest), p);
    assert forall p | Under(q, [name], p) :: c'.Get(p) == c.Get(p);
    KidsKnownFrame(c, c', child, body.inner);
    assert c'.Get(child) == c.Get(child);
  }

  /** Exactly what ending the current section does to it and to its parent. */
  lemma SectionCloses(r: Run, early: bool)
    requires r.active != [] && r.ctx.current == r.active[|r.active| - 1] != []
    requires r.ctx.Status(r.ctx.current) == Executing || Waiting(r.ctx, r.ctx.current)
    ensures
      var child, q := r.ctx.current, Parent(r.ctx.current);
      var r' := if early then r.SectionEndedEarly() else r.SectionEnded();
      var fails := early && r.unfinished == 0;
      && r'.entered == r.entered && r'.unfinished == r.unfinished + (if early then 1 else 0)
      && (forall p :: r'.ctx.Children(p) == r.ctx.Children(p))
      && (forall p | p != q && p != child :: r'.ctx.Status(p) == r.ctx.Status(p))
      && r'.ctx.Status(q) == (if fails then NeedsAnotherRun else r.ctx.Status(q))
      && r'.ctx.Status(child) ==
         (if fails then Failed
          else if r.ctx.Status(child) == Executing
            || (r.ctx.Status(child) == ExecutingChildren && r.ctx.AllComplete(child, r.ctx.Children(child)))
            then CompletedSuccessfully
          else r.ctx.Status(child))
  {
    assert r.ctx.current != Parent(r.ctx.current);
  }

  /** r3 is r after its section was entered and left as the next of its own passes says. */
  ghost predicate SectionFollows(r: Run, r3: Run, thrown: bool, q: Path, name: NameAndLocation, inner: Body) {
    var child := q + [name];
    var left := Left(r.ctx, child, inner);
    && r3.entered == r.entered + Enter(child, left[0]).trail
    && thrown == left[0].thrown
    && (r3.unfinished > 0 <==> left[0].thrown)
    && (r3.ctx.IsComplete(child) <==> |left| == 1)
    && (|left| > 1 ==> Left(r3.ctx, child, inner) == left[1..])
    && (if thrown then StaysOpen(r3.ctx, q) else r3.ctx.Status(q) == ExecutingChildren)
    && KidsKnown(r3.ctx, child, inner) && Knows(r3.ctx, child, Names(inner))
    && Registers(r.ctx, r3.ctx, q, [name]) && name in r3.ctx.Children(q)
  }

  /** The first section that is not complete is entered and left, and what comes after it registered. */
  lemma PassThrough(r: Run, q: Path, body: Body)
    requires Distinct(body) && body.Section? && Ready(r, q, body) && KidsKnown(r.ctx, q, body)
    requires !r.ctx.IsComplete(q + [body.name])
    ensures Advances(r, r.Exec(body).0, r.Exec(body).1, q, body)
    decreases body, 1
  {
    var name, inner, rest := body.name, body.inner, body.rest;
    var child := q + [name];
    var more := RunSection(r, q, body);
    var r1 := r.SectionStarted(name);
    var (r2, thrown) := r1.Exec(inner);
    var r3 := if thrown then r2.SectionEndedEarly() else r2.SectionEnded();
    EnterAndLeave(r, q, body);
    assert forall p | Under(q, Names(rest), p) :: p != q && !Under(q, [name], p);
    if !thrown {
      ExecAfterCompletion(r3, q, rest, []);
      RestIsRegistered(r3, q, rest);
    }
    PassedThrough(r, r3, r.Exec(body).0, thrown, r.Exec(body).1, q, body);
  }

  lemma EnterAndLeave(r: Run, q: Path, body: Body)
    requires Distinct(body) && body.Section? && Ready(r, q, body) && KidsKnown(r.ctx, q, body)
    requires !r.ctx.IsComplete(q + [body.name])
    ensures
      var (r2, thrown) := r.SectionStarted(body.name).Exec(body.inner);
      var r3 := if thrown then r2.SectionEndedEarly() else r2.SectionEnded();
      SectionFollows(r, r3, thrown, q, body.name, body.inner)
    decreases body, 0
  {
    var name, inner := body.name, body.inner;
    var child := q + [name];
    AcquireOpens(r.ctx, name);
    var r1 := r.SectionStarted(name);
    assert Entered(r, r1, name);
    assert NodeOk(r.ctx, child, inner);
    ReadyBelow(r, r1, q, name, inner);
    assert forall p | Under(child, Names(inner), p) :: p != child && p != q;
    KidsKnownFrame(r.ctx, r1.ctx, child, inner);
    KidsLeftFrame(r.ctx, r1.ctx, child, inner);
    ExecAdvances(r1, child, inner);
    var more := ExecProgress(r1, child, inner);
    var (r2, thrown) := r1.Exec(inner);
    LeaveSection(r, r1, r2, thrown, q, name, inner);
  }

  /** What the passage through a section's own body leaves for its end. */
  ghost predicate ReadyToLeave(r: Run, r2: Run, thrown: bool, q: Path, name: NameAndLocation, inner: Body) {
    var child := q + [name];
    var kids := KidsLeft(r.ctx, child, inner);
    && r2.active != [] && r2.active[|r2.active| - 1] == child && r2.ctx.current == child
    && r2.ctx.Status(q) == ExecutingChildren
    && Registers(r.ctx, r2.ctx, q, [name]) && name in r2.ctx.Children(q)
    && KidsKnown(r2.ctx, child, inner) && Knows(r2.ctx, child, Names(inner))
    && if kids == [] then
         && r2.ctx.Status(child) == Executing && r2.entered == r.entered + [child] && r2.unfinished == 0
         && thrown == EndsInThrow(inner)
       else
         && r2.entered == r.entered + [child] + kids[0].trail && (r2.unfinished > 0 <==> kids[0].thrown)
         && thrown == (kids[0].thrown || EndsInThrow(inner))
         && KidsLeft(r2.ctx, child, inner) == kids[1..]
         && if kids[0].thrown then StaysOpen(r2.ctx, child)
            else r2.ctx.Status(child) == ExecutingChildren && Registered(r2.ctx, child, Names(inner))
  }

  lemma LeaveSection(r: Run, r1: Run, r2: Run, thrown: bool, q: Path, name: NameAndLocation, inner: Body)
    requires r.ctx.current == q != [] && r.unfinished == 0 && Entered(r, r1, name)
    requires Knows(r.ctx, q + [name], Names(inner))
    requires KidsLeft(r1.ctx, q + [name], inner) == KidsLeft(r.ctx, q + [name], inner)
    requires Advances(r1, r2, thrown, q + [name], inner) && Framed(r1, r2, q + [name], inner)
    ensures
      var r3 := if thrown then r2.SectionEndedEarly() else r2.SectionEnded();
      SectionFollows(r, r3, thrown, q, name, inner)
  {
    ReachesEnd(r, r1, r2, thrown, q, name, inner);
    hide *;
    LeaveReady(r, r2, thrown, q, name, inner);
  }

  lemma ReachesEnd(r: Run, r1: Run, r2: Run, thrown: bool, q: Path, name: NameAndLocation, inner: Body)
    requires r.ctx.current == q != [] && r.unfinished == 0 && Entered(r, r1, name)
    requires Knows(r.ctx, q + [name], Names(inner))
    requires KidsLeft(r1.ctx, q + [name], inner) == KidsLeft(r.ctx, q + [name], inner)
    requires Advances(r1, r2, thrown, q + [name], inner) && Framed(r1, r2, q + [name], inner)
    ensures ReadyToLeave(r, r2, thrown, q, name, inner)
  {
    hide KidsLeft, KidsKnown, Names, EndsInThrow, StaysOpen;
    var child := q + [name];
    assert child != q && !Under(child, Names(inner), q);
    assert r2.ctx.Get(q) == r1.ctx.Get(q);
  }

  lemma LeaveReady(r: Run, r2: Run, thrown: bool, q: Path, name: NameAndLocation, inner: Body)
    requires q != [] && ReadyToLeave(r, r2, thrown, q, name, inner)
    ensures
      var r3 := if thrown then r2.SectionEndedEarly() else r2.SectionEnded();
      SectionFollows(r, r3, thrown, q, name, inner)
  {
    var child := q + [name];
    assert Parent(child) == q && child != q;
    SectionCloses(r2, thrown);
    var r3 := if thrown then r2.SectionEndedEarly() else r2.SectionEnded();
    assert forall p | Under(child, Names(inner), p) :: p != child && p != q;
    KidsKnownFrame(r2.ctx, r3.ctx, child, inner);
    KidsLeftFrame(r2.ctx, r3.ctx, child, inner);
    assert Closes(r2, r3, thrown, q, child);
    LeftClosed(r, r2, r3, thrown, q, name, inner);
  }

  /** The current section child has been ended, and q is current again. */
  ghost predicate Closes(r2: Run, r3: Run, early: bool, q: Path, child: Path) {
    var fails := early && r2.unfinished == 0;
    && r3.entered == r2.entered && r3.unfinished == r2.unfinished + (if early then 1 else 0)
    && r3.ctx.Children(child) == r2.ctx.Children(child) && r3.ctx.Children(q) == r2.ctx.Children(q)
    && r3.ctx.Status(q) == (if fails then NeedsAnotherRun else r2.ctx.Status(q))
    && r3.ctx.Status(child) ==
       (if fails then Failed
        else if r2.ctx.Status(child) == Executing
          || (r2.ctx.Status(child) == ExecutingChildren && r2.ctx.AllComplete(child, r2.ctx.Children(child)))
          then CompletedSuccessfully
        else r2.ctx.Status(child))
  }

  lemma LeftClosed(r: Run, r2: Run, r3: Run, thrown: bool, q: Path, name: NameAndLocation, inner: Body)
    requires q != [] && ReadyToLeave(r, r2, thrown, q, name, inner)
    requires Closes(r2, r3, thrown, q, q + [name])
    requires KidsKnown(r3.ctx, q + [name], inner)
    requires KidsLeft(r3.ctx, q + [name], inner) == KidsLeft(r2.ctx, q + [name], inner)
    ensures SectionFollows(r, r3, thrown, q, name, inner)
  {
    hide KidsLeft, KidsKnown, UntilThrown, UntilClosed, Names, EndsInThrow, Passes, Enter;
    var child := q + [name];
    var kids := KidsLeft(r.ctx, child, inner);
    PlanSteps(inner, kids);
    EnterTrail(child, Left(r.ctx, child, inner)[0]);
    if kids != [] {
      if kids[0].thrown {
        StaysIncomplete(r2.ctx, child);
      } else {
        AllOrNothingIf(r2.ctx, child, inner);
      }
    }
    if thrown && r2.unfinished > 0 {
      assert !r3.ctx.IsComplete(child);
    }
  }

  lemma EnterTrail(p: Path, pass: Pass)
    ensures Enter(p, pass).trail == [p] + pass.trail && Enter(p, pass).thrown == pass.thrown
  {
  }

  lemma StaysIncomplete(c: Context, q: Path)
    requires StaysOpen(c, q)
    ensures c.Status(q) == NeedsAnotherRun || (c.Status(q) == ExecutingChildren && !c.AllComplete(q, c.Children(q)))
  {
    if c.Status(q) != NeedsAnotherRun {
      var name :| name in c.Children(q) && !c.IsComplete(q + [name]);
      var i :| 0 <= i < |c.Children(q)| && c.Children(q)[i] == name;
    }
  }

  /** The first of a section's passes, and the passes after it. */
  lemma PlanSteps(inner: Body, kids: seq<Pass>)
    ensures
      var passes := Passes(inner, kids);
      if kids == [] then passes == [Pass([], EndsInThrow(inner))]
      else && passes[0].trail == kids[0].trail && passes[0].thrown == (kids[0].thrown || EndsInThrow(inner))
           && (kids[0].thrown ==> passes[1..] == Passes(inner, kids[1..]) && |passes| > 1)
           && (!kids[0].thrown && EndsInThrow(inner) ==> |passes| == 1)
           && (!kids[0].thrown && !EndsInThrow(inner) ==>
                 if |kids| == 1 then |passes| == 1 else passes[1..] == Passes(inner, kids[1..]) && |passes| > 1)
  {
  }

  lemma AllOrNothingIf(c: Context, q: Path, body: Body)
    ensures Knows(c, q, Names(body)) && Registered(c, q, Names(body)) ==>
              (c.AllComplete(q, c.Children(q)) <==> KidsLeft(c, q, body) == [])
  {
    if Knows(c, q, Names(body)) && Registered(c, q, Names(body)) {
      AllOrNothing(c, q, body);
    }
  }

  /** Where all sections of a body and no others are registered, all are complete when nothing is left. */
  lemma AllOrNothing(c: Context, q: Path, body: Body)
    requires Knows(c, q, Names(body)) && Registered(c, q, Names(body))
    ensures c.AllComplete(q, c.Children(q)) <==> KidsLeft(c, q, body) == []
  {
    NothingLeft(c, q, body);
    if c.AllComplete(q, c.Children(q)) {
      forall name | name in Names(body)
        ensures c.IsComplete(q + [name])
      {
        var i :| 0 <= i < |c.Children(q)| && c.Children(q)[i] == name;
      }
    }
  }

  /** The states before and after a passage that entered the body's first section and left it at c3. */
  ghost predicate Passed(c: Context, c3: Context, c': Context, q: Path, body: Body) {
    && body.Section? && Distinct(body) && OnlyUnder(c, c3, q, [body.name])
    && (forall p | p != q :: c'.Get(p) == c3.Get(p))
  }

  lemma PassedKnown(c: Context, c3: Context, c': Context, q: Path, body: Body)
    requires Passed(c, c3, c', q, body) && KidsKnown(c, q, body)
    requires KidsKnown(c3, q + [body.name], body.inner) && Knows(c3, q + [body.name], Names(body.inner))
    ensures KidsKnown(c', q, body)
  {
    var name, rest, child := body.name, body.rest, q + [body.name];
    UnderSelf(q, name, rest);
    UnderChild(q, name, Names(body.inner));
    assert forall p | Under(q, Names(rest), p) :: p != q && !Under(q, [name], p);
    KidsKnownFrame(c, c', q, rest);
    assert forall p | Under(child, Names(body.inner), p) :: p != q;
    KidsKnownFrame(c3, c', child, body.inner);
    assert c'.Get(child) == c3.Get(child);
  }

  lemma PassedLeft(c: Context, c3: Context, c': Context, q: Path, body: Body)
    requires Passed(c, c3, c', q, body) && !c.IsComplete(q + [body.name])
    requires
      var left := Left(c, q + [body.name], body.inner);
      && (c3.IsComplete(q + [body.name]) <==> |left| == 1)
      && (|left| > 1 ==> Left(c3, q + [body.name], body.inner) == left[1..])
    ensures
      var left := KidsLeft(c, q, body);
      && left != [] && left[0] == Enter(q + [body.name], Left(c, q + [body.name], body.inner)[0])
      && KidsLeft(c', q, body) == left[1..]
  {
    var child := q + [body.name];
    PassedFrames(c, c3, c', q, body);
    SplitLeft(c, q, body);
    SplitLeft(c', q, body);
    hide KidsLeft, Passed, EnterAll, Distinct;
    FirstOfAll(child, Left(c, child, body.inner), KidsLeft(c, q, body.rest));
  }

  lemma SplitLeft(c: Context, q: Path, body: Body)
    requires body.Section?
    ensures KidsLeft(c, q, body) ==
              (if c.IsComplete(q + [body.name]) then [] else EnterAll(q + [body.name], Left(c, q + [body.name], body.inner)))
              + KidsLeft(c, q, body.rest)
  {
  }

  lemma PassedFrames(c: Context, c3: Context, c': Context, q: Path, body: Body)
    requires Passed(c, c3, c', q, body)
    ensures KidsLeft(c', q, body.rest) == KidsLeft(c, q, body.rest)
    ensures Left(c', q + [body.name], body.inner) == Left(c3, q + [body.name], body.inner)
    ensures c'.IsComplete(q + [body.name]) == c3.IsComplete(q + [body.name])
  {
    var name, inner, rest, child := body.name, body.inner, body.rest, q + [body.name];
    UnderSelf(q, name, rest);
    UnderChild(q, name, Names(inner));
    assert forall p | Under(q, Names(rest), p) :: p != q && !Under(q, [name], p);
    KidsLeftFrame(c, c', q, rest);
    assert forall p | Under(child, Names(inner), p) :: p != q;
    KidsLeftFrame(c3, c', child, inner);
    assert c'.Get(child) == c3.Get(child);
  }

  lemma FirstOfAll(p: Path, passes: seq<Pass>, later: seq<Pass>)
    requires passes != []
    ensures (EnterAll(p, passes) + later)[0] == Enter(p, passes[0])
    ensures (EnterAll(p, passes) + later)[1..] == EnterAll(p, passes[1..]) + later
    ensures |passes| == 1 ==> (EnterAll(p, passes) + later)[1..] == [] + later
  {
  }

  lemma PassedThrough(r: Run, r3: Run, r': Run, thrown3: bool, thrown: bool, q: Path, body: Body)
    requires Passed(r.ctx, r3.ctx, r'.ctx, q, body) && KidsKnown(r.ctx, q, body)
    requires !r.ctx.IsComplete(q + [body.name])
    requires SectionFollows(r, r3, thrown3, q, body.name, body.inner)
    requires if thrown3 then r' == r3 && thrown
             else && thrown == EndsInThrow(body.rest)
                  && r'.entered == r3.entered && r'.unfinished == r3.unfinished
                  && Registers(r3.ctx, r'.ctx, q, Names(body.rest)) && Registered(r'.ctx, q, Names(body.rest))
                  && r'.ctx.Status(q) == r3.ctx.Status(q)
    ensures Advances(r, r', thrown, q, body)
  {
    PassedKnown(r.ctx, r3.ctx, r'.ctx, q, body);
    PassedLeft(r.ctx, r3.ctx, r'.ctx, q, body);
    assert Names(body) == [body.name] + Names(body.rest) && EndsInThrow(body) == EndsInThrow(body.rest);
    EnterTrail(q + [body.name], Left(r.ctx, q + [body.name], body.inner)[0]);
    hide KidsLeft, Left, KidsKnown, Names, EndsInThrow, Passed, Enter, Distinct;
  }

  // Whole runs

  /** Between two cycles: what is left of the run's plan. */
  ghost predicate Unfinished(r: Run, t: NameAndLocation, body: Body, left: seq<Pass>) {
    && Pending(r, t, body)
    && KidsKnown(r.ctx, [t], body) && Knows(r.ctx, [t], Names(body))
    && UntilClosed(KidsLeft(r.ctx, [t], body)) == left
  }

  /** A cycle makes the next of the passes left; the last of them completes the test case. */
  ghost predicate CycleFollows(r: Run, r': Run, t: NameAndLocation, body: Body, left: seq<Pass>) {
    && left != []
    && r'.entered == r.entered + left[0].trail
    && if |left| == 1 then r'.ctx.Status([t]) == CompletedSuccessfully
       else r'.ctx.Status([t]) != CompletedSuccessfully && (Pending(r', t, body) ==> Unfinished(r', t, body, left[1..]))
  }

  lemma CycleAdvances(r: Run, t: NameAndLocation, body: Body, left: seq<Pass>)
    requires Distinct(body) && Settled(r, t, body) && Unfinished(r, t, body, left)
    ensures CycleFollows(r, r.Cycle(t, body), t, body, left)
  {
    TestCaseOpens(r.ctx.StartCycle(), t);
    var r1 := r.(ctx := r.ctx.StartCycle().Acquire(t));
    TestCaseReady(r, r1, t, body);
    assert forall p | Under([t], Names(body), p) :: p != [] && p != [t];
    KidsKnownFrame(r.ctx, r1.ctx, [t], body);
    KidsLeftFrame(r.ctx, r1.ctx, [t], body);
    ExecAdvances(r1, [t], body);
    var more := ExecProgress(r1, [t], body);
    var (r2, thrown) := r1.Exec(body);
    var r3 := r2.(ctx := r2.ctx.Close([t]));
    TestCaseLeft(r, r1, r2, thrown, t, body, left);
    UnfinishedAreDropped(r3);
    assert r.Cycle(t, body) == r3.(unfinished := 0);
  }

  lemma TestCaseLeft(r: Run, r1: Run, r2: Run, thrown: bool, t: NameAndLocation, body: Body, left: seq<Pass>)
    requires Unfinished(r, t, body, left) && TestCaseEntered(r, r1, t)
    requires KidsLeft(r1.ctx, [t], body) == KidsLeft(r.ctx, [t], body)
    requires Advances(r1, r2, thrown, [t], body) && Framed(r1, r2, [t], body)
    ensures CycleFollows(r, r2.(ctx := r2.ctx.Close([t]), unfinished := 0), t, body, left)
  {
    CaseReachesEnd(r, r1, r2, thrown, t, body, left);
    hide KidsLeft, KidsKnown, Names, EndsInThrow, StaysOpen, Registers, Follows;
    var c := r2.ctx.Close([t]);
    assert Parent([t]) == [] && r2.ctx.current == [t];
    assert forall p | Under([t], Names(body), p) :: p != [t] && c.Get(p) == r2.ctx.Get(p);
    KidsKnownFrame(r2.ctx, c, [t], body);
    KidsLeftFrame(r2.ctx, c, [t], body);
    CaseCloses(r2.ctx, t);
    CaseClosed(r, r2, r2.(ctx := c, unfinished := 0), t, body, left);
  }

  lemma CaseReachesEnd(r: Run, r1: Run, r2: Run, thrown: bool, t: NameAndLocation, body: Body, left: seq<Pass>)
    requires Unfinished(r, t, body, left) && TestCaseEntered(r, r1, t)
    requires KidsLeft(r1.ctx, [t], body) == KidsLeft(r.ctx, [t], body)
    requires Advances(r1, r2, thrown, [t], body) && Framed(r1, r2, [t], body)
    ensures CaseToClose(r, r2, t, body)
  {
    hide KidsLeft, KidsKnown, Names, EndsInThrow, StaysOpen;
  }

  /** What the passage through the test case leaves for its end. */
  ghost predicate CaseToClose(r: Run, r2: Run, t: NameAndLocation, body: Body) {
    var kids := KidsLeft(r.ctx, [t], body);
    && r2.ctx.current == [t]
    && KidsKnown(r2.ctx, [t], body) && Knows(r2.ctx, [t], Names(body))
    && if kids == [] then r2.ctx.Status([t]) == Executing && r2.entered == r.entered
       else && r2.entered == r.entered + kids[0].trail
            && KidsLeft(r2.ctx, [t], body) == kids[1..]
            && if kids[0].thrown then StaysOpen(r2.ctx, [t])
               else r2.ctx.Status([t]) == ExecutingChildren && Registered(r2.ctx, [t], Names(body))
  }

  lemma CaseCloses(c: Context, t: NameAndLocation)
    requires c.current == [t]
    requires c.Status([t]) == Executing || Waiting(c, [t])
    ensures
      var c' := c.Close([t]);
      && c'.Children([t]) == c.Children([t])
      && c'.Status([t]) ==
         if c.Status([t]) == Executing
           || (c.Status([t]) == ExecutingChildren && c.AllComplete([t], c.Children([t])))
           then CompletedSuccessfully
         else c.Status([t])
  {
  }

  lemma CaseClosed(r: Run, r2: Run, r3: Run, t: NameAndLocation, body: Body, left: seq<Pass>)
    requires Unfinished(r, t, body, left) && CaseToClose(r, r2, t, body)
    requires r3.entered == r2.entered && r3.ctx.Children([t]) == r2.ctx.Children([t])
    requires r3.ctx.Status([t]) ==
             if r2.ctx.Status([t]) == Executing
               || (r2.ctx.Status([t]) == ExecutingChildren && r2.ctx.AllComplete([t], r2.ctx.Children([t])))
               then CompletedSuccessfully
             else r2.ctx.Status([t])
    requires KidsKnown(r3.ctx, [t], body)
    requires KidsLeft(r3.ctx, [t], body) == KidsLeft(r2.ctx, [t], body)
    ensures CycleFollows(r, r3, t, body, left)
  {
    var kids := KidsLeft(r.ctx, [t], body);
    PlanSteps(End, kids);
    hide KidsLeft, KidsKnown, UntilThrown, UntilClosed, Names, NodeOk;
    if kids != [] {
      if kids[0].thrown {
        StaysIncomplete(r2.ctx, [t]);
      } else {
        AllOrNothingIf(r2.ctx, [t], body);
      }
    }
  }

  /** After k cycles: the first k passes of the plan have been made. */
  ghost predicate Planned(r: Run, t: NameAndLocation, body: Body, k: nat) {
    var plan := RunPlan(t, body);
    && Settled(r, t, body) && k <= |plan|
    && r.entered == Trailed(plan[..k])
    && if k == |plan| then r.ctx.Status([t]) == CompletedSuccessfully
       else r.ctx.Status([t]) != CompletedSuccessfully && Unfinished(r, t, body, plan[k..])
  }

  lemma PlannedInitially(t: NameAndLocation, body: Body)
    ensures Planned(READY, t, body, 0)
  {
    assert Untouched(READY.ctx, [t]);
    FreshKidsLeft(READY.ctx, [t], body);
    FreshKidsKnown(READY.ctx, [t], body);
    assert RunPlan(t, body)[0..] == RunPlan(t, body);
  }

  lemma PlannedNext(r: Run, t: NameAndLocation, body: Body, k: nat)
    requires Distinct(body) && Planned(r, t, body, k) && k < |RunPlan(t, body)|
    ensures Planned(r.Cycle(t, body), t, body, k + 1)
  {
    var plan := RunPlan(t, body);
    CycleProgress(r, t, body);
    CycleAdvances(r, t, body, plan[k..]);
    assert plan[k..][1..] == plan[k + 1..] && plan[k..][0] == plan[k];
    assert plan[..k + 1][..k] == plan[..k];
  }

  /** Whatever the bodies throw, cycle k enters the sections that pass k of the plan lists, and the test case
      is complete exactly when the plan is done. */
  lemma {:induction false} CyclesFollowPlan(t: NameAndLocation, body: Body, k: nat)
    requires Distinct(body) && k <= |RunPlan(t, body)|
    ensures Planned(Cycles(t, body, k), t, body, k)
  {
    hide Planned, Distinct, RunPlan, Run.Cycle;
    if k == 0 {
      PlannedInitially(t, body);
    } else {
      CyclesFollowPlan(t, body, k - 1);
      PlannedNext(Cycles(t, body, k - 1), t, body, k - 1);
    }
  }

  /** The loop stops when the plan is done. */
  lemma StopsAfterPlan(t: NameAndLocation, body: Body, n: nat)
    requires Distinct(body) && StillRunning(t, body, n)
    requires Cycles(t, body, n).ctx.Status([t]) == CompletedSuccessfully
    ensures n == |RunPlan(t, body)| && Cycles(t, body, n).entered == Trailed(RunPlan(t, body))
  {
    var plan := RunPlan(t, body);
    CyclesFollowPlan(t, body, |plan|);
    if n <= |plan| {
      CyclesFollowPlan(t, body, n);
    }
    assert plan[..|plan|] == plan;
  }
}
