/** The rerun loop on bodies that may throw out to the test boundary: no leaf section is entered
    twice, no tracker is closed in an illogical state, and every cycle but the last completes a
    section for good, so the loop stops. */
module ThrowingRuns {
  import opened TrackerStates
  import opened SectionRuns

  function Sections(body: Body): nat {
    match body
    case Section(_, inner, rest) => 1 + Sections(inner) + Sections(rest)
    case _ => 0
  }

  /** The tracker of a section at q between cycles: untouched, complete, or waiting for another run. */
  ghost predicate NodeOk(c: Context, q: Path, inner: Body)
    decreases inner, 1
  {
    || Untouched(c, q)
    || c.IsComplete(q)
    || ((c.Status(q) == ExecutingChildren || c.Status(q) == NeedsAnotherRun) && KidsOk(c, q, inner))
  }

  /** Behind complete sections comes at most one unfinished section, and nothing after it is touched. */
  ghost predicate KidsOk(c: Context, q: Path, body: Body)
    decreases body, 0
  {
    match body
    case Section(name, inner, rest) =>
      if c.IsComplete(q + [name]) then KidsOk(c, q, rest)
      else NodeOk(c, q + [name], inner) && KidsFresh(c, q, rest)
    case _ => true
  }

  ghost predicate KidsFresh(c: Context, q: Path, body: Body) {
    forall p | Under(q, Names(body), p) :: c.Get(p) == FRESH
  }

  /** Sections that are not complete, not looking below complete ones. */
  ghost function Incomplete(c: Context, q: Path, body: Body): nat
    decreases body
  {
    match body
    case Section(name, inner, rest) =>
      (if c.IsComplete(q + [name]) then 0 else 1 + Incomplete(c, q + [name], inner)) + Incomplete(c, q, rest)
    case _ => 0
  }

  lemma UnderSelf(q: Path, name: NameAndLocation, rest: Body)
    ensures forall p | Under(q, [name], p) :: q + [name] <= p
    ensures forall p | q + [name] <= p :: Under(q, [name], p)
    ensures Under(q, [name], q + [name])
    ensures forall p :: Under(q, [name] + Names(rest), p) <==> Under(q, [name], p) || Under(q, Names(rest), p)
  {
  }

  lemma {:induction false} KidsOkFrame(c: Context, c': Context, q: Path, body: Body)
    requires forall p | Under(q, Names(body), p) :: c'.Get(p) == c.Get(p)
    ensures KidsOk(c, q, body) ==> KidsOk(c', q, body)
    ensures Incomplete(c', q, body) == Incomplete(c, q, body)
    decreases body, 0
  {
    if body.Section? {
      var child := q + [body.name];
      UnderSelf(q, body.name, body.rest);
      assert c'.Get(child) == c.Get(child);
      KidsOkFrame(c, c', q, body.rest);
      NodeOkFrame(c, c', child, body.inner);
    }
  }

  lemma {:induction false} NodeOkFrame(c: Context, c': Context, q: Path, inner: Body)
    requires forall p | q <= p :: c'.Get(p) == c.Get(p)
    ensures NodeOk(c, q, inner) ==> NodeOk(c', q, inner)
    ensures Incomplete(c', q, inner) == Incomplete(c, q, inner)
    decreases inner, 1
  {
    assert q <= q;
    assert forall p | Under(q, Names(inner), p) :: q <= p;
    KidsOkFrame(c, c', q, inner);
  }

  lemma {:induction false} FreshKidsOk(c: Context, q: Path, body: Body)
    requires KidsFresh(c, q, body)
    ensures KidsOk(c, q, body)
  {
  }

  lemma {:induction false} IncompleteAtMostSections(c: Context, q: Path, body: Body)
    ensures Incomplete(c, q, body) <= Sections(body)
    decreases body
  {
    if body.Section? {
      IncompleteAtMostSections(c, q + [body.name], body.inner);
      IncompleteAtMostSections(c, q, body.rest);
    }
  }

  /** The executing tracker q about to pass over the sections of a body. */
  ghost predicate Ready(r: Run, q: Path, body: Body) {
    && q != [] && r.ctx.current == q && r.ctx.runState == Running && r.unfinished == 0
    && r.ctx.Status(q) == Executing && r.ctx.Status(Parent(q)) == ExecutingChildren
    && KidsOk(r.ctx, q, body)
  }

  /** Complete trackers have stayed complete. */
  ghost predicate StaysComplete(c: Context, c': Context) {
    forall p | c.IsComplete(p) :: c'.IsComplete(p)
  }

  /** Only q and what lies under the body's sections has changed, and the runner stands where it stood. */
  ghost predicate Framed(r: Run, r': Run, q: Path, body: Body) {
    && r'.active == r.active && r'.ctx.current == r.ctx.current && r'.ctx.fault == r.ctx.fault
    && OnlyUnder(r.ctx, r'.ctx, q, Names(body))
  }

  /** Nothing was opened. */
  ghost predicate Quiet(r: Run, r': Run) {
    && r' == r.(ctx := r'.ctx) && r'.ctx == r.ctx.(trackers := r'.ctx.trackers)
    && forall p :: r'.ctx.Status(p) == r.ctx.Status(p)
  }

  /** The entries of a cycle: incomplete sections of the body, each once, the leaves complete afterwards. */
  ghost predicate NewEntries(c: Context, c': Context, q: Path, body: Body, more: seq<Path>) {
    && (forall p | p in more :: Under(q, Names(body), p) && !c.IsComplete(p))
    && (forall p :: multiset(more)[p] <= 1)
    && (forall p | p in more && p in KidLeaves(q, body) :: c'.IsComplete(p))
  }

  ghost predicate Waiting(c: Context, q: Path) {
    c.Status(q) == ExecutingChildren || c.Status(q) == NeedsAnotherRun
  }

  /** Something was opened below q and, by the end, completed; more is what was entered. */
  ghost predicate Worked(r: Run, r': Run, q: Path, body: Body, more: seq<Path>) {
    && r'.ctx.runState == CompletedCycle && Waiting(r'.ctx, q)
    && KidsOk(r'.ctx, q, body)
    && Incomplete(r'.ctx, q, body) < Incomplete(r.ctx, q, body)
    && StaysComplete(r.ctx, r'.ctx)
    && r'.entered == r.entered + more && NewEntries(r.ctx, r'.ctx, q, body, more)
  }

  ghost predicate CloserToDone(c: Context, c': Context, q: Path, inner: Body) {
    Waiting(c', q) && KidsOk(c', q, inner) && Incomplete(c', q, inner) < Incomplete(c, q, inner)
  }

  /** The first unfinished section of a body has been entered and left: it is complete, or closer to it. */
  ghost predicate SectionDone(r: Run, r': Run, q: Path, name: NameAndLocation, inner: Body, more: seq<Path>) {
    var child := q + [name];
    && r'.active == r.active && r'.ctx.current == q && r'.ctx.fault == r.ctx.fault
    && r'.ctx.runState == CompletedCycle && Waiting(r'.ctx, q)
    && OnlyUnder(r.ctx, r'.ctx, q, [name])
    && StaysComplete(r.ctx, r'.ctx)
    && (r'.ctx.IsComplete(child) || CloserToDone(r.ctx, r'.ctx, child, inner))
    && (!inner.Section? ==> r'.ctx.IsComplete(child))
    && r'.entered == r.entered + [child] + more && NewEntries(r.ctx, r'.ctx, child, inner, more)
  }

  lemma {:induction false} ExecProgress(r: Run, q: Path, body: Body) returns (more: seq<Path>)
    requires Distinct(body) && Ready(r, q, body)
    ensures Framed(r, r.Exec(body).0, q, body)
    ensures Quiet(r, r.Exec(body).0) || Worked(r, r.Exec(body).0, q, body, more)
    ensures !r.Exec(body).1 ==> r.Exec(body).0.unfinished == 0
    decreases body
  {
    more := [];
    if body.Section? {
      var name, inner, rest := body.name, body.inner, body.rest;
      var child := q + [name];
      if r.ctx.IsComplete(child) {
        var r1 := r.SectionStarted(name);
        assert !r.Included(name) && (forall p | p != q :: r1.ctx.Get(p) == r.ctx.Get(p));
        KidsOkFrame(r.ctx, r1.ctx, q, rest);
        more := ExecProgress(r1, q, rest);
        PassedComplete(r, r1, r.Exec(body).0, q, body, more);
      } else {
        more := RunSection(r, q, body);
        var (r2, thrown) := r.SectionStarted(name).Exec(inner);
        var r3 := if thrown then r2.SectionEndedEarly() else r2.SectionEnded();
        assert forall p | Under(q, Names(rest), p) :: p != q && !Under(q, [name], p);
        if !thrown {
          ExecAfterCompletion(r3, q, rest, []);
        }
        SectionDoneIsWorked(r, r3, r.Exec(body).0, q, body, more);
        more := [child] + more;
      }
    }
  }

  /** Entering and leaving the first unfinished section of a body. */
  lemma RunSection(r: Run, q: Path, body: Body) returns (more: seq<Path>)
    requires Distinct(body) && body.Section? && Ready(r, q, body) && !r.ctx.IsComplete(q + [body.name])
    ensures r.Included(body.name)
    ensures
      var (r2, thrown) := r.SectionStarted(body.name).Exec(body.inner);
      var r3 := if thrown then r2.SectionEndedEarly() else r2.SectionEnded();
      SectionDone(r, r3, q, body.name, body.inner, more) && (!thrown ==> r3.unfinished == 0)
    decreases body, 0
  {
    var name, inner := body.name, body.inner;
    var child := q + [name];
    AcquireOpens(r.ctx, name);
    var r1 := r.SectionStarted(name);
    assert Entered(r, r1, name);
    assert NodeOk(r.ctx, child, inner);
    ReadyBelow(r, r1, q, name, inner);
    more := ExecProgress(r1, child, inner);
    var (r2, thrown) := r1.Exec(inner);
    if Quiet(r1, r2) {
      more := [];
      QuietSectionEnds(r, r1, r2, q, name, inner, thrown);
    } else {
      WorkedSectionEnds(r, r1, r2, q, name, inner, thrown, more);
    }
  }

  lemma ReadyBelow(r: Run, r1: Run, q: Path, name: NameAndLocation, inner: Body)
    requires r.ctx.current == q && r.ctx.runState == Running && r.unfinished == 0 && Entered(r, r1, name)
    requires NodeOk(r.ctx, q + [name], inner) && !r.ctx.IsComplete(q + [name])
    ensures Ready(r1, q + [name], inner)
  {
    var child := q + [name];
    assert child <= child && Parent(child) == q;
    assert forall p | Under(child, Names(inner), p) :: child <= p && p != child && p != q;
    if Untouched(r.ctx, child) {
      FreshKidsOk(r1.ctx, child, inner);
    } else {
      KidsOkFrame(r.ctx, r1.ctx, child, inner);
    }
  }

  /** What ending the current section does, early or not. */
  lemma EndSection(r: Run, early: bool)
    requires r.active != [] && r.ctx.current == r.active[|r.active| - 1] != []
    requires r.ctx.Status(r.ctx.current) == Executing || Waiting(r.ctx, r.ctx.current)
    ensures
      var child, q := r.ctx.current, Parent(r.ctx.current);
      var r' := if early then r.SectionEndedEarly() else r.SectionEnded();
      && r'.active == r.active[..|r.active| - 1] && r'.entered == r.entered
      && r'.ctx.current == q && r'.ctx.runState == CompletedCycle && r'.ctx.fault == r.ctx.fault
      && (forall p | p != q && p != child :: r'.ctx.Get(p) == r.ctx.Get(p))
      && (r'.ctx.Status(q) == r.ctx.Status(q) || r'.ctx.Status(q) == NeedsAnotherRun)
      && (r'.ctx.IsComplete(child) || (r'.ctx.Status(child) == r.ctx.Status(child) && Waiting(r.ctx, child)))
      && (early ==> r'.unfinished > 0) && (!early ==> r'.unfinished == r.unfinished)
  {
  }

  lemma QuietSectionEnds(r: Run, r1: Run, r2: Run, q: Path, name: NameAndLocation, inner: Body, early: bool)
    requires r.ctx.current == q != [] && r.ctx.Status(q) == Executing && r.unfinished == 0
    requires !r.ctx.IsComplete(q + [name])
    requires Entered(r, r1, name) && Quiet(r1, r2) && Framed(r1, r2, q + [name], inner)
    ensures
      var r3 := if early then r2.SectionEndedEarly() else r2.SectionEnded();
      SectionDone(r, r3, q, name, inner, []) && (!early ==> r3.unfinished == 0)
  {
    var child := q + [name];
    assert Parent(child) == q && child != q;
    assert r2.active[|r2.active| - 1] == child && r2.active[..|r2.active| - 1] == r.active;
    EndSection(r2, early);
    var r3 := if early then r2.SectionEndedEarly() else r2.SectionEnded();
    SectionFrame(r, r1, r2, r3, q, name, inner);
  }

  /** What lies outside a section that was entered and left has not changed, and what was complete is. */
  lemma SectionFrame(r: Run, r1: Run, r2: Run, r3: Run, q: Path, name: NameAndLocation, inner: Body)
    requires r.ctx.current == q && r.ctx.Status(q) == Executing && !r.ctx.IsComplete(q + [name])
    requires Entered(r, r1, name) && OnlyUnder(r1.ctx, r2.ctx, q + [name], Names(inner))
    requires StaysComplete(r1.ctx, r2.ctx)
    requires forall p | p != q && p != q + [name] :: r3.ctx.Get(p) == r2.ctx.Get(p)
    ensures OnlyUnder(r.ctx, r3.ctx, q, [name])
    ensures StaysComplete(r.ctx, r3.ctx)
    ensures r2.ctx.Get(q) == r1.ctx.Get(q)
  {
    var child := q + [name];
    UnderSelf(q, name, End);
    UnderChild(q, name, Names(inner));
    assert q != child && !Under(child, Names(inner), q);
    forall p | r.ctx.IsComplete(p) ensures r3.ctx.IsComplete(p) {
      assert p != q && p != child;
      assert r1.ctx.Get(p) == r.ctx.Get(p);
      assert r1.ctx.IsComplete(p);
    }
  }

  lemma WorkedSectionEnds(r: Run, r1: Run, r2: Run, q: Path, name: NameAndLocation, inner: Body, early: bool,
                          more: seq<Path>)
    requires r.ctx.current == q != [] && r.ctx.Status(q) == Executing && r.unfinished == 0
    requires !r.ctx.IsComplete(q + [name])
    requires Entered(r, r1, name) && Worked(r1, r2, q + [name], inner, more) && Framed(r1, r2, q + [name], inner)
    requires !early ==> r2.unfinished == 0
    ensures
      var r3 := if early then r2.SectionEndedEarly() else r2.SectionEnded();
      SectionDone(r, r3, q, name, inner, more) && (!early ==> r3.unfinished == 0)
  {
    var child := q + [name];
    assert Parent(child) == q && child != q;
    assert r2.active[|r2.active| - 1] == child && r2.active[..|r2.active| - 1] == r.active;
    EndSection(r2, early);
    var r3 := if early then r2.SectionEndedEarly() else r2.SectionEnded();
    SectionFrame(r, r1, r2, r3, q, name, inner);
    assert forall p | Under(child, Names(inner), p) :: p != child && p != q;
    KidsOkFrame(r.ctx, r1.ctx, child, inner);
    KidsOkFrame(r2.ctx, r3.ctx, child, inner);
    assert r3.entered == r.entered + [child] + more;
    assert NewEntries(r.ctx, r3.ctx, child, inner, more);
  }

  /** With the first unfinished section done and the ones after it only registered, the body is closer to done. */
  lemma SectionDoneIsWorked(r: Run, r3: Run, r': Run, q: Path, body: Body, more: seq<Path>)
    requires Distinct(body) && body.Section? && r.ctx.current == q && KidsOk(r.ctx, q, body)
    requires !r.ctx.IsComplete(q + [body.name])
    requires SectionDone(r, r3, q, body.name, body.inner, more)
    requires r'.active == r3.active && r'.entered == r3.entered
    requires r'.ctx == r3.ctx.(trackers := r'.ctx.trackers)
    requires (forall p | p != q :: r'.ctx.Get(p) == r3.ctx.Get(p)) && r'.ctx.Status(q) == r3.ctx.Status(q)
    ensures Framed(r, r', q, body)
    ensures Worked(r, r', q, body, [q + [body.name]] + more)
  {
    var name, inner, rest := body.name, body.inner, body.rest;
    var child := q + [name];
    UnderSelf(q, name, rest);
    assert forall p :: r'.ctx.Status(p) == r3.ctx.Status(p);
    SectionDoneKids(r.ctx, r3.ctx, r'.ctx, q, body);
    SectionEntries(r.ctx, r'.ctx, q, body, more);
    assert r'.entered == r.entered + ([child] + more);
  }

  lemma SectionDoneKids(c: Context, c3: Context, c': Context, q: Path, body: Body)
    requires Distinct(body) && body.Section? && KidsOk(c, q, body) && !c.IsComplete(q + [body.name])
    requires OnlyUnder(c, c3, q, [body.name]) && forall p | p != q :: c'.Get(p) == c3.Get(p)
    requires c3.IsComplete(q + [body.name]) || CloserToDone(c, c3, q + [body.name], body.inner)
    ensures KidsOk(c', q, body) && Incomplete(c', q, body) < Incomplete(c, q, body)
  {
    var name, inner, rest := body.name, body.inner, body.rest;
    var child := q + [name];
    assert forall p | Under(q, Names(rest), p) :: p != q && !Under(q, [name], p);
    KidsOkFrame(c, c', q, rest);
    FreshKidsOk(c', q, rest);
    assert forall p | Under(child, Names(inner), p) :: p != q;
    KidsOkFrame(c3, c', child, inner);
    assert c'.Get(child) == c3.Get(child);
    assert !c'.IsComplete(child) ==> NodeOk(c', child, inner);
  }

  lemma SectionEntries(c: Context, c': Context, q: Path, body: Body, more: seq<Path>)
    requires Distinct(body) && body.Section? && !c.IsComplete(q + [body.name])
    requires NewEntries(c, c', q + [body.name], body.inner, more)
    requires !body.inner.Section? ==> c'.IsComplete(q + [body.name])
    ensures NewEntries(c, c', q, body, [q + [body.name]] + more)
  {
    var name, inner, rest := body.name, body.inner, body.rest;
    var child := q + [name];
    UnderSelf(q, name, rest);
    UnderChild(q, name, Names(inner));
    LeavesUnder(child, inner);
    LeavesUnder(q, rest);
    assert forall p | Under(q, Names(rest), p) :: !Under(q, [name], p);
    assert child !in more;
    assert multiset([child] + more) == multiset{child} + multiset(more);
  }

  lemma PassedComplete(r: Run, r1: Run, r': Run, q: Path, body: Body, more: seq<Path>)
    requires Distinct(body) && body.Section? && r.ctx.IsComplete(q + [body.name])
    requires r1 == r.(ctx := r1.ctx) && r1.ctx == r.ctx.(trackers := r1.ctx.trackers)
    requires (forall p | p != q :: r1.ctx.Get(p) == r.ctx.Get(p)) && r1.ctx.Status(q) == r.ctx.Status(q)
    requires Framed(r1, r', q, body.rest)
    ensures Framed(r, r', q, body)
    ensures Quiet(r1, r') ==> Quiet(r, r')
    ensures Worked(r1, r', q, body.rest, more) ==> Worked(r, r', q, body, more)
  {
    var child := q + [body.name];
    UnderSelf(q, body.name, body.rest);
    assert child != q && r1.ctx.IsComplete(child);
    KidsOkFrame(r.ctx, r1.ctx, q, body.rest);
    LeafUnderChild(q, body.name, body.inner);
    LeavesUnder(q, body.rest);
    assert forall p :: r1.ctx.Status(p) == r.ctx.Status(p);
    assert forall p | Under(q, Names(body.rest), p) && p in KidLeaves(q, body) :: p in KidLeaves(q, body.rest);
  }

  // Whole runs

  /** Every leaf section has been entered at most once, and only if it is complete. */
  ghost predicate LeavesOnce(r: Run, t: NameAndLocation, body: Body) {
    forall p | p in KidLeaves([t], body) :: multiset(r.entered)[p] <= (if r.ctx.IsComplete(p) then 1 else 0)
  }

  /** Nothing is left open or pending, and no tracker was ever closed in an illogical state. */
  ghost predicate Settled(r: Run, t: NameAndLocation, body: Body) {
    && r.active == [] && r.unfinished == 0 && !r.ctx.fault
    && (r.ctx.Children([]) == [] || r.ctx.Children([]) == [t])
    && LeavesOnce(r, t, body)
  }

  /** The test case still waits for a run. */
  ghost predicate Pending(r: Run, t: NameAndLocation, body: Body) {
    !r.ctx.IsComplete([t]) && NodeOk(r.ctx, [t], body)
  }

  lemma {:induction false} UnfinishedAreDropped(r: Run)
    requires r.active == []
    ensures r.HandleUnfinished() == r.(unfinished := 0)
    decreases r.unfinished
  {
    if r.unfinished > 0 {
      UnfinishedAreDropped(r.(unfinished := r.unfinished - 1));
    }
  }

  /** A cycle completes the test case or brings it closer. */
  lemma CycleProgress(r: Run, t: NameAndLocation, body: Body)
    requires Distinct(body) && Settled(r, t, body) && Pending(r, t, body)
    ensures
      var r' := r.Cycle(t, body);
      && Settled(r', t, body)
      && (|| r'.ctx.Status([t]) == CompletedSuccessfully
          || (Pending(r', t, body) && Incomplete(r'.ctx, [t], body) < Incomplete(r.ctx, [t], body)))
  {
    TestCaseOpens(r.ctx.StartCycle(), t);
    var r1 := r.(ctx := r.ctx.StartCycle().Acquire(t));
    TestCaseReady(r, r1, t, body);
    var more := ExecProgress(r1, [t], body);
    var r2 := r1.Exec(body).0;
    var r3 := r2.(ctx := r2.ctx.Close([t]));
    if Quiet(r1, r2) {
      QuietTestCaseEnds(r, r1, r2, r3, t, body);
    } else {
      WorkedTestCaseEnds(r, r1, r2, r3, t, body, more);
    }
    UnfinishedAreDropped(r3);
    assert r.Cycle(t, body) == r3.(unfinished := 0);
  }

  /** r1 is r with the test case's tracker just opened. */
  ghost predicate TestCaseEntered(r: Run, r1: Run, t: NameAndLocation) {
    && r1 == r.(ctx := r1.ctx)
    && r1.ctx == r.ctx.(trackers := r1.ctx.trackers, current := [t], runState := Running)
    && r1.ctx.Get([t]) == r.ctx.Get([t]).(runState := Executing)
    && r1.ctx.Get([]) == Tracker(ExecutingChildren, [t])
    && forall p | p != [] && p != [t] :: r1.ctx.Get(p) == r.ctx.Get(p)
  }

  lemma TestCaseReady(r: Run, r1: Run, t: NameAndLocation, body: Body)
    requires Settled(r, t, body) && Pending(r, t, body) && TestCaseEntered(r, r1, t)
    ensures Ready(r1, [t], body)
    ensures Incomplete(r1.ctx, [t], body) == Incomplete(r.ctx, [t], body)
  {
    assert [t] <= [t] && Parent([t]) == [];
    assert forall p | Under([t], Names(body), p) :: [t] <= p && p != [t] && p != [];
    KidsOkFrame(r.ctx, r1.ctx, [t], body);
    if Untouched(r.ctx, [t]) {
      FreshKidsOk(r1.ctx, [t], body);
    }
  }

  lemma QuietTestCaseEnds(r: Run, r1: Run, r2: Run, r3: Run, t: NameAndLocation, body: Body)
    requires Settled(r, t, body) && TestCaseEntered(r, r1, t) && Quiet(r1, r2) && Framed(r1, r2, [t], body)
    requires r3 == r2.(ctx := r2.ctx.Close([t]))
    ensures Settled(r3, t, body) && r3.ctx.Status([t]) == CompletedSuccessfully
  {
    assert Parent([t]) == [] && !Under([t], Names(body), []);
    assert forall p | p != [t] :: r3.ctx.Get(p) == r2.ctx.Get(p);
    LeavesBelowTestCase(t, body);
    forall p | p in KidLeaves([t], body) ensures r3.ctx.Status(p) == r.ctx.Status(p) {
      assert r3.ctx.Status(p) == r2.ctx.Status(p) == r1.ctx.Status(p);
    }
  }

  lemma WorkedTestCaseEnds(r: Run, r1: Run, r2: Run, r3: Run, t: NameAndLocation, body: Body, more: seq<Path>)
    requires Settled(r, t, body) && TestCaseEntered(r, r1, t)
    requires Worked(r1, r2, [t], body, more) && Framed(r1, r2, [t], body)
    requires Incomplete(r1.ctx, [t], body) == Incomplete(r.ctx, [t], body)
    requires r3 == r2.(ctx := r2.ctx.Close([t]))
    ensures Settled(r3.(unfinished := 0), t, body)
    ensures r3.ctx.Status([t]) == CompletedSuccessfully
            || (Pending(r3, t, body) && Incomplete(r3.ctx, [t], body) < Incomplete(r.ctx, [t], body))
  {
    assert Parent([t]) == [] && !Under([t], Names(body), []);
    assert forall p | p != [t] :: r3.ctx.Get(p) == r2.ctx.Get(p);
    KidsOkFrame(r2.ctx, r3.ctx, [t], body);
    LeavesStayOnce(r, r1, r2, t, body, more);
    LeavesBelowTestCase(t, body);
  }

  lemma LeavesBelowTestCase(t: NameAndLocation, body: Body)
    ensures forall p | p in KidLeaves([t], body) :: p != [] && p != [t]
  {
    LeavesUnder([t], body);
    assert forall p | Under([t], Names(body), p) :: |p| > 1;
  }

  lemma LeavesStayOnce(r: Run, r1: Run, r2: Run, t: NameAndLocation, body: Body, more: seq<Path>)
    requires LeavesOnce(r, t, body) && TestCaseEntered(r, r1, t) && StaysComplete(r1.ctx, r2.ctx)
    requires r2.entered == r1.entered + more && NewEntries(r1.ctx, r2.ctx, [t], body, more)
    ensures LeavesOnce(r2, t, body)
  {
    LeavesBelowTestCase(t, body);
    forall p | p in KidLeaves([t], body)
      ensures multiset(r2.entered)[p] <= (if r2.ctx.IsComplete(p) then 1 else 0)
    {
      CountAppend(r.entered, more, p);
      assert r1.ctx.Get(p) == r.ctx.Get(p);
      assert p in more <==> multiset(more)[p] > 0;
    }
  }

  /** No cycle before the k-th has completed the test case. */
  ghost predicate StillRunning(t: NameAndLocation, body: Body, k: nat) {
    forall j: nat | j < k :: Cycles(t, body, j).ctx.Status([t]) != CompletedSuccessfully
  }

  /** After k cycles: done in time, or with no more sections left than cycles allowed. */
  ghost predicate Progressed(r: Run, t: NameAndLocation, body: Body, k: nat) {
    && Settled(r, t, body)
    && (|| (r.ctx.Status([t]) == CompletedSuccessfully && 1 <= k <= Sections(body) + 1)
        || (Pending(r, t, body) && Incomplete(r.ctx, [t], body) + k <= Sections(body)))
  }

  lemma ProgressedInitially(t: NameAndLocation, body: Body)
    ensures Progressed(READY, t, body, 0)
  {
    IncompleteAtMostSections(READY.ctx, [t], body);
    assert Untouched(READY.ctx, [t]);
  }

  lemma ProgressedNext(r: Run, t: NameAndLocation, body: Body, k: nat)
    requires Distinct(body) && Progressed(r, t, body, k) && r.ctx.Status([t]) != CompletedSuccessfully
    ensures Progressed(r.Cycle(t, body), t, body, k + 1)
  {
    CycleProgress(r, t, body);
  }

  /** While the loop runs, each cycle completes a section for good: it cannot run more often than
      there are sections, and once more. */
  lemma {:induction false} CyclesProgress(t: NameAndLocation, body: Body, k: nat)
    requires Distinct(body) && StillRunning(t, body, k)
    ensures Progressed(Cycles(t, body, k), t, body, k)
  {
    if k == 0 {
      ProgressedInitially(t, body);
    } else {
      CyclesProgress(t, body, k - 1);
      ProgressedNext(Cycles(t, body, k - 1), t, body, k - 1);
    }
  }

  /** The loop has stopped with the test case complete. No leaf section has been entered twice and
      no tracker was closed in an illogical state. */
  ghost predicate Stopped(r: Run, t: NameAndLocation, body: Body) {
    && r.ctx.Status([t]) == CompletedSuccessfully && !r.ctx.fault && r.active == []
    && forall p | p in KidLeaves([t], body) :: multiset(r.entered)[p] <= 1
  }

  lemma ProgressedMeans(r: Run, t: NameAndLocation, body: Body, k: nat)
    requires Progressed(r, t, body, k)
    ensures k <= Sections(body) + 1
    ensures if r.ctx.Status([t]) == CompletedSuccessfully then 1 <= k && Stopped(r, t, body) else k <= Sections(body)
  {
  }

  lemma RunsOn(t: NameAndLocation, body: Body, k: nat)
    requires StillRunning(t, body, k) && Cycles(t, body, k).ctx.Status([t]) != CompletedSuccessfully
    ensures StillRunning(t, body, k + 1)
  {
  }

  /** The loop stops, within one cycle more than there are sections. */
  lemma {:induction false} LoopStops(t: NameAndLocation, body: Body, k: nat) returns (n: nat)
    requires Distinct(body) && StillRunning(t, body, k)
    ensures k <= n && 1 <= n <= Sections(body) + 1
    ensures StillRunning(t, body, n) && Stopped(Cycles(t, body, n), t, body)
    decreases Sections(body) + 1 - k
  {
    CyclesProgress(t, body, k);
    ProgressedMeans(Cycles(t, body, k), t, body, k);
    if Cycles(t, body, k).ctx.Status([t]) == CompletedSuccessfully {
      n := k;
    } else {
      RunsOn(t, body, k);
      n := LoopStops(t, body, k + 1);
    }
  }
}
