/** The tracker context and the run context as the objects the runner updates in place; every
    operation is tied to the value-level operation of TrackerStates. */
module SectionTracker {
  import opened TrackerStates
  import opened SectionRuns
  import opened ThrowingRuns
  import opened RunPlans
  import opened ReachedLeaves

  class TrackerContext {
    var trackers: map<Path, Tracker>
    var currentTracker: Path
    var runState: RunState
    var internalError: bool

    ghost function Value(): Context
      reads this
    {
      Context(trackers, currentTracker, runState, internalError)
    }

    constructor ()
      ensures Value() == Context(map[], [], Idle, false)
    {
      trackers, currentTracker, runState, internalError := map[], [], Idle, false;
    }

    /** A new root tracker. */
    method StartRun()
      modifies this
      ensures Value() == STARTED
    {
      trackers, currentTracker, runState, internalError := map[], [], Running, false;
    }

    method StartCycle()
      modifies this
      ensures Value() == old(Value()).StartCycle()
    {
      currentTracker, runState := [], Running;
    }

    method CompleteCycle()
      modifies this`runState
      ensures Value() == old(Value()).(runState := CompletedCycle)
    {
      runState := CompletedCycle;
    }

    method SetCurrentTracker(tracker: Path)
      modifies this`currentTracker
      ensures Value() == old(Value()).(current := tracker)
    {
      currentTracker := tracker;
    }

    function Get(p: Path): (tracker: Tracker)
      reads this
      ensures tracker == Value().Get(p)
    {
      if p in trackers then trackers[p] else FRESH
    }

    method SetRunState(p: Path, s: CycleState)
      modifies this`trackers
      ensures Value() == old(Value()).SetStatus(p, s)
    {
      trackers := trackers[p := Get(p).(runState := s)];
    }

    predicate IsComplete(p: Path)
      reads this
      ensures IsComplete(p) == Value().IsComplete(p)
    {
      Get(p).runState == CompletedSuccessfully || Get(p).runState == Failed
    }

    /** Search p's children for the name. */
    method FindChild(p: Path, name: NameAndLocation) returns (found: bool)
      ensures found <==> name in Value().Children(p)
    {
      var children := Get(p).children;
      var i := 0;
      while i < |children|
        invariant i <= |children|
        invariant name !in children[..i]
      {
        if children[i].line == name.line && children[i] == name {
          return true;
        }
        i := i + 1;
      }
      return false;
    }

    method AddChild(p: Path, name: NameAndLocation)
      modifies this`trackers
      ensures Value() == old(Value()).AddChild(p, name)
    {
      trackers := trackers[p := Get(p).(children := Get(p).children + [name])];
    }

    method OpenChild(p: Path)
      modifies this`trackers
      ensures Value() == old(Value()).OpenChild(p)
      decreases |p|
    {
      if Get(p).runState != ExecutingChildren {
        SetRunState(p, ExecutingChildren);
        if p != [] {
          OpenChild(Parent(p));
        }
      }
    }

    method Open(p: Path)
      modifies this`trackers, this`currentTracker
      ensures Value() == old(Value()).Open(p)
    {
      SetRunState(p, Executing);
      SetCurrentTracker(p);
      if p != [] {
        OpenChild(Parent(p));
      }
    }

    /** Whether every child of p is complete. */
    method AllChildrenComplete(p: Path) returns (all: bool)
      ensures all <==> Value().AllComplete(p, Value().Children(p))
    {
      var children := Get(p).children;
      var i := 0;
      while i < |children|
        invariant i <= |children|
        invariant forall j | 0 <= j < i :: Value().IsComplete(p + [children[j]])
      {
        if !IsComplete(p + [children[i]]) {
          return false;
        }
        i := i + 1;
      }
      return true;
    }

    method Close(p: Path)
      requires Value().CanClose(p)
      modifies this
      ensures Value() == old(Value()).Close(p)
      decreases |currentTracker| - |p|
    {
      while currentTracker != p
        invariant Value().CanClose(p) && |currentTracker| <= |old(currentTracker)|
        invariant Value().Close(p) == old(Value()).Close(p)
        decreases |currentTracker|
      {
        Close(currentTracker);
      }
      match Get(p).runState
      {
        case NeedsAnotherRun =>
        case Executing =>
          SetRunState(p, CompletedSuccessfully);
        case ExecutingChildren =>
          var all := AllChildrenComplete(p);
          if all {
            SetRunState(p, CompletedSuccessfully);
          }
        case _ =>
          internalError := true;
      }
      SetCurrentTracker(Parent(p));
      CompleteCycle();
    }

    method Fail(p: Path)
      requires p != []
      modifies this
      ensures Value() == old(Value()).Fail(p)
    {
      SetRunState(p, Failed);
      SetRunState(Parent(p), NeedsAnotherRun);
      SetCurrentTracker(Parent(p));
      CompleteCycle();
    }

    /** Find or create the named child of the current tracker and open it if it may run. */
    method Acquire(name: NameAndLocation) returns (tracker: Path)
      modifies this
      ensures tracker == old(currentTracker) + [name]
      ensures Value() == old(Value()).Acquire(name)
    {
      tracker := currentTracker + [name];
      var found := FindChild(currentTracker, name);
      if !found {
        AddChild(currentTracker, name);
      }
      if runState != CompletedCycle {
        if !IsComplete(tracker) {
          Open(tracker);
        }
      }
    }
  }

  // Errors are never forgotten

  lemma {:induction false} OpenChildKeepsFault(c: Context, p: Path)
    ensures c.OpenChild(p).fault == c.fault && c.OpenChild(p).current == c.current
    decreases |p|
  {
    if c.Status(p) != ExecutingChildren && p != [] {
      OpenChildKeepsFault(c.SetStatus(p, ExecutingChildren), Parent(p));
    }
  }

  lemma AcquireKeepsFault(c: Context, name: NameAndLocation)
    ensures c.Acquire(name).fault == c.fault
  {
    var p := c.current + [name];
    var c0 := if name in c.Children(c.current) then c else c.AddChild(c.current, name);
    OpenChildKeepsFault(c0.SetStatus(p, Executing).(current := p), Parent(p));
  }

  lemma {:induction false} CloseKeepsFault(c: Context, p: Path)
    ensures c.fault ==> c.Close(p).fault
    decreases |c.current|
  {
    if c.CanClose(p) && c.current != p {
      CloseKeepsFault(c.CloseCurrent(), p);
    }
  }

  lemma EndKeepsFault(r: Run)
    ensures r.ctx.fault ==> r.SectionEnded().ctx.fault && r.SectionEndedEarly().ctx.fault
  {
    if r.active != [] {
      CloseKeepsFault(r.ctx, r.active[|r.active| - 1]);
    }
  }

  lemma {:induction false} ExecKeepsFault(r: Run, body: Body)
    ensures r.ctx.fault ==> r.Exec(body).0.ctx.fault
    decreases body
  {
    if body.Section? {
      AcquireKeepsFault(r.ctx, body.name);
      var r1 := r.SectionStarted(body.name);
      if r.Included(body.name) {
        ExecKeepsFault(r1, body.inner);
        var r2 := r1.Exec(body.inner).0;
        EndKeepsFault(r2);
        ExecKeepsFault(r2.SectionEnded(), body.rest);
      } else {
        ExecKeepsFault(r1, body.rest);
      }
    }
  }

  lemma {:induction false} HandleUnfinishedKeepsFault(r: Run)
    ensures r.ctx.fault ==> r.HandleUnfinished().ctx.fault
    decreases r.unfinished
  {
    if r.unfinished > 0 {
      var r1 := r.(unfinished := r.unfinished - 1);
      EndKeepsFault(r1);
      HandleUnfinishedKeepsFault(r1.SectionEnded());
    }
  }

  /** An error-free cycle passes its body without error and can close the test case. */
  lemma CleanCycle(r: Run, t: NameAndLocation, body: Body)
    requires !r.Cycle(t, body).ctx.fault
    ensures
      var r2 := r.(ctx := r.ctx.StartCycle().Acquire(t)).Exec(body).0;
      !r2.ctx.fault && r2.ctx.CanClose([t])
  {
    var r2 := r.(ctx := r.ctx.StartCycle().Acquire(t)).Exec(body).0;
    CloseKeepsFault(r2.ctx, [t]);
    HandleUnfinishedKeepsFault(r2.(ctx := r2.ctx.Close([t])));
  }

  class RunContext {
    const trackerContext: TrackerContext
    var activeSections: seq<Path>
    var unfinishedSections: nat
    /** The sections whose bodies were entered. */
    ghost var entered: seq<Path>

    ghost function Value(): Run
      reads this, trackerContext
    {
      Run(trackerContext.Value(), activeSections, unfinishedSections, entered)
    }

    constructor ()
      ensures fresh(trackerContext)
      ensures activeSections == [] && unfinishedSections == 0
    {
      trackerContext := new TrackerContext();
      activeSections, unfinishedSections, entered := [], 0, [];
    }

    method SectionStarted(name: NameAndLocation) returns (included: bool)
      modifies this, trackerContext
      ensures included == old(Value()).Included(name)
      ensures Value() == old(Value()).SectionStarted(name)
    {
      var tracker := trackerContext.Acquire(name);
      if trackerContext.Get(tracker).runState == NotStarted || trackerContext.IsComplete(tracker) {
        return false;
      }
      activeSections := activeSections + [tracker];
      entered := entered + [tracker];
      return true;
    }

    method SectionEnded()
      requires !Value().SectionEnded().ctx.fault
      modifies this, trackerContext
      ensures Value() == old(Value()).SectionEnded()
    {
      if activeSections != [] {
        trackerContext.Close(activeSections[|activeSections| - 1]);
        activeSections := activeSections[..|activeSections| - 1];
      }
    }

    method SectionEndedEarly()
      requires !Value().SectionEndedEarly().ctx.fault
      modifies this, trackerContext
      ensures Value() == old(Value()).SectionEndedEarly()
    {
      var last := activeSections[|activeSections| - 1];
      if unfinishedSections == 0 {
        trackerContext.Fail(last);
      } else {
        trackerContext.Close(last);
      }
      activeSections := activeSections[..|activeSections| - 1];
      unfinishedSections := unfinishedSections + 1;
    }

    /** Run a test body; thrown tells whether an exception leaves it. */
    method Invoke(body: Body) returns (thrown: bool)
      requires !Value().Exec(body).0.ctx.fault
      modifies this, trackerContext
      ensures Value() == old(Value()).Exec(body).0 && thrown == old(Value()).Exec(body).1
      decreases body
    {
      match body
      case End =>
        return false;
      case Throw =>
        return true;
      case Section(name, inner, rest) =>
        var included := SectionStarted(name);
        if included {
          ghost var r2 := Value().Exec(inner).0;
          EndKeepsFault(r2);
          ExecKeepsFault(r2.SectionEnded(), rest);
          thrown := Invoke(inner);
          if thrown {
            SectionEndedEarly();
            return;
          }
          SectionEnded();
        }
        thrown := Invoke(rest);
    }

    /** Tell the end of every section that ended early. */
    method HandleUnfinishedSections()
      requires !Value().HandleUnfinished().ctx.fault
      modifies this, trackerContext
      ensures Value() == old(Value()).HandleUnfinished()
    {
      while unfinishedSections > 0
        invariant Value().HandleUnfinished() == old(Value()).HandleUnfinished()
        decreases unfinishedSections
      {
        ghost var r := Value().(unfinished := unfinishedSections - 1);
        HandleUnfinishedKeepsFault(r.SectionEnded());
        unfinishedSections := unfinishedSections - 1;
        SectionEnded();
      }
    }

    /** One pass through the test body, with its tracker open; exceptions stop here. */
    method RunCurrentTest(testCaseTracker: Path, body: Body)
      requires
        var r := Value().Exec(body).0;
        && !r.ctx.fault && r.ctx.CanClose(testCaseTracker)
        && !r.(ctx := r.ctx.Close(testCaseTracker)).HandleUnfinished().ctx.fault
      modifies this, trackerContext
      ensures
        var r := old(Value()).Exec(body).0;
        Value() == r.(ctx := r.ctx.Close(testCaseTracker)).HandleUnfinished()
    {
      var thrown := Invoke(body);
      trackerContext.Close(testCaseTracker);
      HandleUnfinishedSections();
    }

    /** One cycle: open the test case's tracker and pass through its body. */
    method RunCycle(testInfo: NameAndLocation, body: Body) returns (completed: bool)
      requires !Value().Cycle(testInfo, body).ctx.fault
      modifies this, trackerContext
      ensures Value() == old(Value()).Cycle(testInfo, body)
      ensures completed <==> Value().ctx.Status([testInfo]) == CompletedSuccessfully
    {
      CleanCycle(Value(), testInfo, body);
      trackerContext.StartCycle();
      var testCaseTracker := trackerContext.Acquire(testInfo);
      assert testCaseTracker == [testInfo];
      RunCurrentTest(testCaseTracker, body);
      completed := trackerContext.Get(testCaseTracker).runState == CompletedSuccessfully;
    }

    /** Rerun a test case until its tracker has completed. */
    method RunTest(testInfo: NameAndLocation, body: Body) returns (testRuns: nat)
      requires Distinct(body)
      requires activeSections == [] && unfinishedSections == 0
      modifies this, trackerContext
      ensures Value() == Cycles(testInfo, body, testRuns)
      ensures Stopped(Value(), testInfo, body) && StillRunning(testInfo, body, testRuns)
      ensures 1 <= testRuns <= Sections(body) + 1
      ensures NeverThrows(body) ==> testRuns == Leaves(body) && entered == Trails([testInfo], body, Leaves(body))
      ensures testRuns == |RunPlan(testInfo, body)| && entered == Trailed(RunPlan(testInfo, body))
      ensures forall p | p in KidLeaves([testInfo], body) ::
                multiset(entered)[p] == if p in ReachedKids([testInfo], body, false) then 1 else 0
      ensures OnlyLeavesThrow(body) ==> forall p | p in KidLeaves([testInfo], body) :: multiset(entered)[p] == 1
      ensures activeSections == [] && unfinishedSections == 0
    {
      trackerContext.StartRun();
      entered := [];
      testRuns := 0;
      ProgressedInitially(testInfo, body);
      while true
        invariant Value() == Cycles(testInfo, body, testRuns) && StillRunning(testInfo, body, testRuns)
        invariant Progressed(Value(), testInfo, body, testRuns)
        invariant Value().ctx.Status([testInfo]) != CompletedSuccessfully
        invariant testRuns <= Sections(body)
        decreases Sections(body) - testRuns
      {
        ProgressedNext(Value(), testInfo, body, testRuns);
        var completed := RunCycle(testInfo, body);
        RunsOn(testInfo, body, testRuns);
        testRuns := testRuns + 1;
        ProgressedMeans(Value(), testInfo, body, testRuns);
        if completed {
          break;
        }
      }
      if NeverThrows(body) {
        StopsAfterLeaves(testInfo, body, testRuns);
      }
      StopsAfterPlan(testInfo, body, testRuns);
      LeavesEntered(testInfo, body);
    }
  }

  /** A body that never throws is run once for each leaf. */
  lemma StopsAfterLeaves(t: NameAndLocation, body: Body, n: nat)
    requires NeverThrows(body) && Distinct(body)
    requires StillRunning(t, body, n) && Cycles(t, body, n).ctx.Status([t]) == CompletedSuccessfully
    ensures n == Leaves(body) && Cycles(t, body, n).entered == Trails([t], body, n)
  {
    CyclesEnterLeavesInOrder(t, body, Leaves(body));
    if n <= Leaves(body) {
      CyclesEnterLeavesInOrder(t, body, n);
    }
  }

  /** The plan's leaves, and all of them where only leaves throw. */
  lemma LeavesEntered(t: NameAndLocation, body: Body)
    requires Distinct(body)
    ensures forall p | p in KidLeaves([t], body) ::
              multiset(Trailed(RunPlan(t, body)))[p] == if p in ReachedKids([t], body, false) then 1 else 0
    ensures OnlyLeavesThrow(body) ==>
              forall p | p in KidLeaves([t], body) :: multiset(Trailed(RunPlan(t, body)))[p] == 1
  {
    forall p | p in KidLeaves([t], body)
      ensures multiset(Trailed(RunPlan(t, body)))[p] == if p in ReachedKids([t], body, false) then 1 else 0
    {
      PlanEntersReachedLeaves(t, body, p);
    }
    if OnlyLeavesThrow(body) {
      AllAreReached([t], body);
    }
  }
}
