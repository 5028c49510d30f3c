/** Section trackers as values: what each tracker operation and each section event does to
    the tracker tree. A tracker is addressed by the names on the way to it from the root;
    its parent is that path without the last name. */
module TrackerStates {

  datatype CycleState = NotStarted | Executing | ExecutingChildren | NeedsAnotherRun | CompletedSuccessfully | Failed

  datatype RunState = Idle | Running | CompletedCycle

  datatype NameAndLocation = NameAndLocation(name: string, file: string, line: nat)

  type Path = seq<NameAndLocation>

  datatype Tracker = Tracker(runState: CycleState, children: seq<NameAndLocation>)

  const FRESH := Tracker(NotStarted, [])

  function Parent(p: Path): Path
    requires p != []
  {
    p[..|p| - 1]
  }

  /** The tracker tree, the tracker being executed, and the state of the cycle. fault records
      that some tracker was closed in a state the source reports as an internal error. */
  datatype Context = Context(trackers: map<Path, Tracker>, current: Path, runState: RunState, fault: bool) {

    /** A path nobody has acquired yet stands for a tracker as its constructor leaves it. */
    function Get(p: Path): Tracker {
      if p in trackers then trackers[p] else FRESH
    }

    function Status(p: Path): CycleState {
      Get(p).runState
    }

    function Children(p: Path): seq<NameAndLocation> {
      Get(p).children
    }

    function SetStatus(p: Path, s: CycleState): Context {
      this.(trackers := trackers[p := Get(p).(runState := s)])
    }

    predicate IsComplete(p: Path) {
      Status(p) == CompletedSuccessfully || Status(p) == Failed
    }

    predicate IsOpen(p: Path) {
      Status(p) != NotStarted && !IsComplete(p)
    }

    predicate AllComplete(p: Path, names: seq<NameAndLocation>) {
      forall i | 0 <= i < |names| :: IsComplete(p + [names[i]])
    }

    function AddChild(p: Path, name: NameAndLocation): Context {
      this.(trackers := trackers[p := Get(p).(children := Get(p).children + [name])])
    }

    /** Mark p, and its ancestors up to the first already marked, as executing children. */
    function OpenChild(p: Path): Context
      decreases |p|
    {
      if Status(p) == ExecutingChildren then this
      else
        var c := SetStatus(p, ExecutingChildren);
        if p == [] then c else c.OpenChild(Parent(p))
    }

    function Open(p: Path): Context {
      var c := SetStatus(p, Executing).(current := p);
      if p == [] then c else c.OpenChild(Parent(p))
    }

    /** Close the current tracker, which is not the root. */
    function CloseCurrent(): Context
      requires current != []
    {
      var s := Status(current);
      var c :=
        match s
        case NeedsAnotherRun => this
        case Executing => SetStatus(current, CompletedSuccessfully)
        case ExecutingChildren =>
          if AllComplete(current, Children(current)) then SetStatus(current, CompletedSuccessfully) else this
        case _ => this.(fault := true);
      c.(current := Parent(current), runState := CompletedCycle)
    }

    /** p is the current tracker or an ancestor of it, and not the root. */
    predicate CanClose(p: Path) {
      p != [] && p <= current
    }

    /** Close p, after everything still open below it. Closing a tracker that is not on the way
        to the current one would walk off the root. */
    function Close(p: Path): Context
      decreases |current|
    {
      if !CanClose(p) then this.(fault := true)
      else if current != p then CloseCurrent().Close(p)
      else CloseCurrent()
    }

    function Fail(p: Path): Context
      requires p != []
    {
      SetStatus(p, Failed).SetStatus(Parent(p), NeedsAnotherRun).(current := Parent(p), runState := CompletedCycle)
    }

    /** Find or add the named child of the current tracker, and open it unless the cycle has
        completed or the child has. */
    function Acquire(name: NameAndLocation): Context {
      var p := current + [name];
      var c := if name in Children(current) then this else AddChild(current, name);
      if runState != CompletedCycle && !c.IsComplete(p) then c.Open(p) else c
    }

    function StartCycle(): Context {
      this.(current := [], runState := Running)
    }
  }

  const STARTED := Context(map[], [], Running, false)

  /** What a test body does between the section events: it passes its sections in order and
      comes to its end or throws. The statement behind a Throw is never reached. */
  datatype Body = End | Throw | Section(name: NameAndLocation, inner: Body, rest: Body)

  /** The runner: its trackers, the sections now open, how many ended early, and a log of the
      sections whose bodies were entered. */
  datatype Run = Run(ctx: Context, active: seq<Path>, unfinished: nat, entered: seq<Path>) {

    function SectionStarted(name: NameAndLocation): Run {
      var c := ctx.Acquire(name);
      var p := ctx.current + [name];
      if c.IsOpen(p) then Run(c, active + [p], unfinished, entered + [p]) else this.(ctx := c)
    }

    predicate Included(name: NameAndLocation) {
      ctx.Acquire(name).IsOpen(ctx.current + [name])
    }

    function SectionEnded(): Run {
      if active == [] then this
      else this.(ctx := ctx.Close(active[|active| - 1]), active := active[..|active| - 1])
    }

    function SectionEndedEarly(): Run {
      if active == [] || active[|active| - 1] == [] then this.(ctx := ctx.(fault := true))
      else
        var p := active[|active| - 1];
        Run(if unfinished == 0 then ctx.Fail(p) else ctx.Close(p), active[..|active| - 1], unfinished + 1, entered)
    }

    /** Pass through a body; true when it throws. A section's end is reported as the section
        object is destroyed: early when that happens because of an exception. */
    function Exec(body: Body): (Run, bool)
      decreases body
    {
      match body
      case End => (this, false)
      case Throw => (this, true)
      case Section(name, inner, rest) =>
        if !Included(name) then SectionStarted(name).Exec(rest)
        else
          var (r, thrown) := SectionStarted(name).Exec(inner);
          if thrown then (r.SectionEndedEarly(), true) else r.SectionEnded().Exec(rest)
    }

    /** Tell the end of every section that ended early, now that the exception has been caught. */
    function HandleUnfinished(): Run
      decreases unfinished
    {
      if unfinished == 0 then this
      else this.(unfinished := unfinished - 1).SectionEnded().HandleUnfinished()
    }

    /** One cycle of the test case t. */
    function Cycle(t: NameAndLocation, body: Body): Run {
      var started := this.(ctx := ctx.StartCycle().Acquire(t));
      var r := started.Exec(body).0;
      r.(ctx := r.ctx.Close([t])).HandleUnfinished()
    }
  }

  /** The run before its first cycle. */
  const READY := Run(STARTED, [], 0, [])

  /** The run after k cycles. */
  function Cycles(t: NameAndLocation, body: Body, k: nat): Run {
    if k == 0 then READY else Cycles(t, body, k - 1).Cycle(t, body)
  }
}
