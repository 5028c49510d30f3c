/** The rerun loop on bodies that do not throw: cycle k enters exactly the sections on the way
    to leaf k, and the loop stops when the leaves have run out. */
module SectionRuns {
  import opened TrackerStates

  function Names(body: Body): seq<NameAndLocation> {
    match body
    case Section(name, _, rest) => [name] + Names(rest)
    case _ => []
  }

  /** Sibling sections have different names or locations. */
  predicate Distinct(body: Body) {
    match body
    case Section(name, inner, rest) => name !in Names(rest) && Distinct(inner) && Distinct(rest)
    case _ => true
  }

  predicate NeverThrows(body: Body) {
    match body
    case End => true
    case Throw => false
    case Section(_, inner, rest) => NeverThrows(inner) && NeverThrows(rest)
  }

  /** Leaf sections below a body's sections. */
  function LeafSum(body: Body): nat
    decreases body, 0
  {
    match body
    case Section(_, inner, rest) => Leaves(inner) + LeafSum(rest)
    case _ => 0
  }

  /** Leaves of a section with this body, which is itself one when it has no sections. */
  function Leaves(inner: Body): (n: nat)
    ensures n >= 1
    decreases inner, 1
  {
    if LeafSum(inner) == 0 then 1 else LeafSum(inner)
  }

  /** The sections on the way from q to the k-th leaf in left-to-right, depth-first order. */
  function Trail(q: Path, body: Body, k: nat): seq<Path>
    decreases body
  {
    match body
    case Section(name, inner, rest) =>
      if k < Leaves(inner) then [q + [name]] + Trail(q + [name], inner, k)
      else Trail(q, rest, k - Leaves(inner))
    case _ => []
  }

  function Trails(q: Path, body: Body, k: nat): seq<Path> {
    if k == 0 then [] else Trails(q, body, k - 1) + Trail(q, body, k - 1)
  }

  /** Nothing at or below q has been started. */
  ghost predicate Untouched(c: Context, q: Path) {
    forall p | q <= p :: c.Get(p) == FRESH
  }

  /** The tracker of a section at q with k of its leaves behind it. */
  ghost predicate NodeAt(c: Context, q: Path, inner: Body, k: nat)
    decreases inner, 1
  {
    if k == 0 then Untouched(c, q)
    else if k >= Leaves(inner) then c.Status(q) == CompletedSuccessfully
    else c.Status(q) == ExecutingChildren && c.Children(q) == Names(inner) && KidsAt(c, q, inner, k)
  }

  /** The trackers of the sections of a body at q with k of their leaves behind them. */
  ghost predicate KidsAt(c: Context, q: Path, body: Body, k: nat)
    decreases body, 0
  {
    match body
    case Section(name, inner, rest) =>
      if k < Leaves(inner) then NodeAt(c, q + [name], inner, k) && KidsAt(c, q, rest, 0)
      else NodeAt(c, q + [name], inner, Leaves(inner)) && KidsAt(c, q, rest, k - Leaves(inner))
    case _ => true
  }

  /** p lies at or below one of the named children of q. */
  ghost predicate Under(q: Path, names: seq<NameAndLocation>, p: Path) {
    |p| > |q| && p[..|q|] == q && p[|q|] in names
  }

  /** Nothing has changed but q itself and what lies under the named children. */
  ghost predicate OnlyUnder(c: Context, c': Context, q: Path, names: seq<NameAndLocation>) {
    forall p | p != q && !Under(q, names, p) :: c'.Get(p) == c.Get(p)
  }

  lemma {:induction false} KidsFrame(c: Context, c': Context, q: Path, body: Body, k: nat)
    requires KidsAt(c, q, body, k)
    requires forall p | Under(q, Names(body), p) :: c'.Get(p) == c.Get(p)
    ensures KidsAt(c', q, body, k)
    decreases body, 0
  {
    if body.Section? {
      var child := q + [body.name];
      assert forall p | child <= p :: p[|q|] == child[|q|] && p[..|q|] == child[..|q|] == q;
      assert forall p | child <= p :: Under(q, Names(body), p);
      NodeFrame(c, c', child, body.inner, if k < Leaves(body.inner) then k else Leaves(body.inner));
      KidsFrame(c, c', q, body.rest, if k < Leaves(body.inner) then 0 else k - Leaves(body.inner));
    }
  }

  lemma {:induction false} NodeFrame(c: Context, c': Context, q: Path, inner: Body, k: nat)
    requires NodeAt(c, q, inner, k)
    requires forall p | q <= p :: c'.Get(p) == c.Get(p)
    ensures NodeAt(c', q, inner, k)
    decreases inner, 1
  {
    if 0 < k < Leaves(inner) {
      assert forall p | Under(q, Names(inner), p) :: q <= p;
      KidsFrame(c, c', q, inner, k);
    }
  }

  lemma {:induction false} UntouchedKids(c: Context, q: Path, body: Body)
    requires forall p | Under(q, Names(body), p) :: c.Get(p) == FRESH
    ensures KidsAt(c, q, body, 0)
  {
    if body.Section? {
      var child := q + [body.name];
      assert forall p | child <= p :: p[|q|] == child[|q|] && p[..|q|] == child[..|q|] == q;
      assert forall p | child <= p :: Under(q, Names(body), p);
      UntouchedKids(c, q, body.rest);
    }
  }

  lemma {:induction false} KidsUntouched(c: Context, q: Path, body: Body)
    requires KidsAt(c, q, body, 0)
    ensures forall p | Under(q, Names(body), p) :: c.Get(p) == FRESH
  {
    if body.Section? {
      KidsUntouched(c, q, body.rest);
      forall p | Under(q, Names(body), p) ensures c.Get(p) == FRESH {
        if p[|q|] == body.name {
          assert q + [body.name] <= p;
        }
      }
    }
  }

  /** Acquiring an incomplete section of the executing tracker opens it. */
  lemma AcquireOpens(c: Context, name: NameAndLocation)
    requires c.current != [] && c.runState == Running
    requires c.Status(c.current) == Executing && c.Status(Parent(c.current)) == ExecutingChildren
    requires !c.IsComplete(c.current + [name])
    ensures
      var q, child, c' := c.current, c.current + [name], c.Acquire(name);
      && c' == c.(trackers := c'.trackers, current := child)
      && c'.Get(child) == c.Get(child).(runState := Executing)
      && c'.Get(q) == Tracker(ExecutingChildren, if name in c.Children(q) then c.Children(q) else c.Children(q) + [name])
      && c'.IsOpen(child)
      && forall p | p != q && p != child :: c'.Get(p) == c.Get(p)
  {
    var q, child := c.current, c.current + [name];
    assert Parent(child) == q && child != q && Parent(q) != q && Parent(q) != child;
    var c0 := if name in c.Children(q) then c else c.AddChild(q, name);
    var c1 := c0.SetStatus(child, Executing).(current := child);
    assert c1.Status(q) == Executing;
    var c2 := c1.SetStatus(q, ExecutingChildren);
    assert c2.Status(Parent(q)) == ExecutingChildren;
    assert c1.OpenChild(q) == c2;
  }

  /** The children of a section are all complete exactly when all its leaves are behind it. */
  lemma {:induction false} AllCompleteWhenDone(c: Context, q: Path, body: Body, k: nat)
    requires KidsAt(c, q, body, k) && k <= LeafSum(body)
    ensures c.AllComplete(q, Names(body)) <==> k == LeafSum(body)
  {
    if body.Section? {
      var child := q + [body.name];
      var names := Names(body);
      assert names[0] == body.name && names[1..] == Names(body.rest);
      if k < Leaves(body.inner) {
        assert child <= child;
        assert !c.IsComplete(q + [names[0]]);
      } else {
        AllCompleteWhenDone(c, q, body.rest, k - Leaves(body.inner));
        assert c.IsComplete(q + [names[0]]);
        assert forall i | 0 <= i < |Names(body.rest)| :: Names(body.rest)[i] == names[i + 1];
        assert forall i | 1 <= i < |names| :: names[i] == Names(body.rest)[i - 1];
      }
    }
  }

  /** After the cycle has completed, the remaining untouched sections are only registered. */
  lemma {:induction false} ExecAfterCompletion(r: Run, q: Path, body: Body, pre: seq<NameAndLocation>)
    requires Distinct(body)
    requires r.ctx.current == q && r.ctx.runState == CompletedCycle
    requires forall p | Under(q, Names(body), p) :: r.ctx.Get(p) == FRESH
    ensures
      var r' := r.Exec(body).0;
      && r' == r.(ctx := r'.ctx) && r'.ctx == r.ctx.(trackers := r'.ctx.trackers)
      && (forall p | p != q :: r'.ctx.Get(p) == r.ctx.Get(p))
      && r'.ctx.Status(q) == r.ctx.Status(q)
    ensures NeverThrows(body) ==> !r.Exec(body).1
    ensures
      NeverThrows(body) && (forall name | name in pre :: name !in Names(body))
      && (r.ctx.Children(q) == pre || r.ctx.Children(q) == pre + Names(body))
      ==> r.Exec(body).0.ctx.Children(q) == pre + Names(body)
    decreases body
  {
    if body.Section? {
      var name := body.name;
      var child := q + [name];
      assert Under(q, Names(body), child);
      assert r.ctx.Get(child) == FRESH;
      var r1 := r.SectionStarted(name);
      assert !r.Included(name);
      assert (pre + [name]) + Names(body.rest) == pre + Names(body);
      assert forall p | Under(q, Names(body.rest), p) :: Under(q, Names(body), p) && p != q;
      ExecAfterCompletion(r1, q, body.rest, pre + [name]);
    }
  }

  /** r' is r after a completed cycle's worth of work at or below the current tracker. */
  ghost predicate Worked(r: Run, r': Run, trail: seq<Path>) {
    && r' == r.(ctx := r'.ctx, entered := r.entered + trail)
    && r'.ctx == r.ctx.(trackers := r'.ctx.trackers, runState := CompletedCycle)
  }

  /** The executing tracker q, with k leaves of a body's sections behind it. */
  ghost predicate Passing(r: Run, q: Path, body: Body, k: nat, pre: seq<NameAndLocation>) {
    && q != [] && r.ctx.current == q && r.ctx.runState == Running
    && r.ctx.Status(q) == Executing && r.ctx.Status(Parent(q)) == ExecutingChildren
    && KidsAt(r.ctx, q, body, k)
    && (r.ctx.Children(q) == pre + Names(body) || (k == 0 && pre == r.ctx.Children(q) == []))
    && (forall name | name in pre :: name !in Names(body))
  }

  /** Closing the current section. */
  lemma SectionEnds(r: Run)
    requires r.active != [] && r.ctx.current == r.active[|r.active| - 1] != []
    requires r.ctx.Status(r.ctx.current) == Executing || r.ctx.Status(r.ctx.current) == ExecutingChildren
    ensures
      var q, r' := r.ctx.current, r.SectionEnded();
      && r' == r.(ctx := r'.ctx, active := r.active[..|r.active| - 1])
      && r'.ctx == r.ctx.(trackers := r'.ctx.trackers, current := Parent(q), runState := CompletedCycle)
      && (forall p | p != q :: r'.ctx.Get(p) == r.ctx.Get(p))
      && r'.ctx.Children(q) == r.ctx.Children(q)
      && r'.ctx.Status(q) ==
         (if r.ctx.Status(q) == Executing || r.ctx.AllComplete(q, r.ctx.Children(q)) then CompletedSuccessfully
          else ExecutingChildren)
  {
  }

  /** Passing over the sections already behind, entering the way to leaf k, closing it and
      registering the rest: what one pass of an open tracker q over its sections does. */
  lemma {:induction false} ExecEntersNextLeaf(r: Run, q: Path, body: Body, k: nat, pre: seq<NameAndLocation>)
    requires NeverThrows(body) && Distinct(body) && k < LeafSum(body)
    requires Passing(r, q, body, k, pre)
    ensures !r.Exec(body).1 && Worked(r, r.Exec(body).0, Trail(q, body, k))
    ensures
      var c' := r.Exec(body).0.ctx;
      && c'.Status(q) == ExecutingChildren && c'.Children(q) == pre + Names(body)
      && KidsAt(c', q, body, k + 1)
      && OnlyUnder(r.ctx, c', q, Names(body))
    decreases body
  {
    var name, inner, rest := body.name, body.inner, body.rest;
    var child := q + [name];
    assert (pre + [name]) + Names(rest) == pre + Names(body);
    if k >= Leaves(inner) {
      assert NodeAt(r.ctx, child, inner, Leaves(inner));
      assert !r.Included(name) && r.SectionStarted(name) == r;
      ExecEntersNextLeaf(r, q, rest, k - Leaves(inner), pre + [name]);
      assert child != q && !Under(q, Names(rest), child);
      assert NodeAt(r.Exec(body).0.ctx, child, inner, Leaves(inner));
    } else {
      EnterSection(r, q, body, k, pre);
      var r3 := r.SectionStarted(name).Exec(inner).0.SectionEnded();
      KidsUntouched(r.ctx, q, rest);
      assert forall p | Under(q, Names(rest), p) :: p != q && !Under(q, [name], p);
      ExecAfterCompletion(r3, q, rest, pre + [name]);
      PassedSection(r, r3, r.Exec(body).0, q, body, k, pre);
    }
  }

  lemma PassedSection(r: Run, r3: Run, r': Run, q: Path, body: Body, k: nat, pre: seq<NameAndLocation>)
    requires body.Section? && Distinct(body) && k < Leaves(body.inner)
    requires KidsAt(r.ctx, q, body, k)
    requires NodeAt(r3.ctx, q + [body.name], body.inner, k + 1) && OnlyUnder(r.ctx, r3.ctx, q, [body.name])
    requires forall p | p != q :: r'.ctx.Get(p) == r3.ctx.Get(p)
    ensures KidsAt(r'.ctx, q, body, k + 1) && OnlyUnder(r.ctx, r'.ctx, q, Names(body))
  {
    var rest := body.rest;
    assert forall p | Under(q, Names(rest), p) :: p != q && !Under(q, [body.name], p);
    KidsFrame(r.ctx, r'.ctx, q, rest, 0);
    forall p: Path | q + [body.name] <= p ensures r'.ctx.Get(p) == r3.ctx.Get(p) {
      assert |p| > |q|;
    }
    NodeFrame(r3.ctx, r'.ctx, q + [body.name], body.inner, k + 1);
    assert forall p | Under(q, [body.name], p) :: Under(q, Names(body), p);
  }

  /** r1 is r with its section `name` just opened. */
  ghost predicate Entered(r: Run, r1: Run, name: NameAndLocation) {
    var q, child := r.ctx.current, r.ctx.current + [name];
    && r1 == Run(r1.ctx, r.active + [child], r.unfinished, r.entered + [child])
    && r1.ctx == r.ctx.(trackers := r1.ctx.trackers, current := child)
    && r1.ctx.Get(child) == r.ctx.Get(child).(runState := Executing)
    && r1.ctx.Get(q) ==
       Tracker(ExecutingChildren, if name in r.ctx.Children(q) then r.ctx.Children(q) else r.ctx.Children(q) + [name])
    && forall p | p != q && p != child :: r1.ctx.Get(p) == r.ctx.Get(p)
  }

  /** Entering the first section not yet behind, and leaving it again. */
  lemma EnterSection(r: Run, q: Path, body: Body, k: nat, pre: seq<NameAndLocation>)
    requires NeverThrows(body) && Distinct(body) && body.Section? && k < Leaves(body.inner)
    requires Passing(r, q, body, k, pre)
    ensures r.Included(body.name) && !r.SectionStarted(body.name).Exec(body.inner).1
    ensures
      var r' := r.SectionStarted(body.name).Exec(body.inner).0.SectionEnded();
      && Worked(r, r', Trail(q, body, k))
      && r'.ctx.Status(q) == ExecutingChildren
      && r'.ctx.Children(q) == (if r.ctx.Children(q) == [] then [body.name] else r.ctx.Children(q))
      && NodeAt(r'.ctx, q + [body.name], body.inner, k + 1)
      && OnlyUnder(r.ctx, r'.ctx, q, [body.name])
    decreases body, 0
  {
    var name, inner := body.name, body.inner;
    var child := q + [name];
    assert child <= child;
    assert NodeAt(r.ctx, child, inner, k);
    AcquireOpens(r.ctx, name);
    var r1 := r.SectionStarted(name);
    assert Entered(r, r1, name);
    if LeafSum(inner) == 0 {
      assert inner == End;
      LeaveLeaf(r, r1, q, name);
    } else {
      PassInner(r, r1, q, name, inner, k);
      ExecEntersNextLeaf(r1, child, inner, k, []);
      LeaveInner(r, r1, r1.Exec(inner).0, q, name, inner, k);
    }
  }

  lemma LeaveLeaf(r: Run, r1: Run, q: Path, name: NameAndLocation)
    requires r.ctx.current == q && Entered(r, r1, name)
    ensures
      var r' := r1.SectionEnded();
      && Worked(r, r', [q + [name]])
      && r'.ctx.Get(q) == r1.ctx.Get(q)
      && r'.ctx.Status(q + [name]) == CompletedSuccessfully
      && OnlyUnder(r.ctx, r'.ctx, q, [name])
  {
  }

  lemma PassInner(r: Run, r1: Run, q: Path, name: NameAndLocation, inner: Body, k: nat)
    requires r.ctx.current == q && r.ctx.runState == Running && Entered(r, r1, name)
    requires NodeAt(r.ctx, q + [name], inner, k) && k < LeafSum(inner)
    ensures Passing(r1, q + [name], inner, k, [])
  {
    var child := q + [name];
    assert child <= child && Parent(child) == q;
    assert forall p | Under(child, Names(inner), p) :: child <= p && p != child && p != q;
    if k == 0 {
      UntouchedKids(r1.ctx, child, inner);
    } else {
      KidsFrame(r.ctx, r1.ctx, child, inner, k);
    }
  }

  lemma LeaveInner(r: Run, r1: Run, r2: Run, q: Path, name: NameAndLocation, inner: Body, k: nat)
    requires r.ctx.current == q && Entered(r, r1, name) && k < LeafSum(inner)
    requires Worked(r1, r2, Trail(q + [name], inner, k))
    requires r2.ctx.Status(q + [name]) == ExecutingChildren && r2.ctx.Children(q + [name]) == Names(inner)
    requires KidsAt(r2.ctx, q + [name], inner, k + 1)
    requires OnlyUnder(r1.ctx, r2.ctx, q + [name], Names(inner))
    ensures
      var r' := r2.SectionEnded();
      && Worked(r, r', [q + [name]] + Trail(q + [name], inner, k))
      && r'.ctx.Get(q) == r1.ctx.Get(q)
      && NodeAt(r'.ctx, q + [name], inner, k + 1)
      && OnlyUnder(r.ctx, r'.ctx, q, [name])
  {
    var child := q + [name];
    assert r1.active[|r1.active| - 1] == child && r1.active[..|r1.active| - 1] == r.active;
    assert Parent(child) == q;
    AllCompleteWhenDone(r2.ctx, child, inner, k + 1);
    SectionEnds(r2);
    LeftSection(r, r1, r2, r2.SectionEnded(), q, name, inner, k);
  }

  lemma LeftSection(r: Run, r1: Run, r2: Run, r3: Run, q: Path, name: NameAndLocation, inner: Body, k: nat)
    requires LeafSum(inner) > 0 && k < LeafSum(inner)
    requires KidsAt(r2.ctx, q + [name], inner, k + 1) && OnlyUnder(r1.ctx, r2.ctx, q + [name], Names(inner))
    requires forall p | p != q && p != q + [name] :: r1.ctx.Get(p) == r.ctx.Get(p)
    requires forall p | p != q + [name] :: r3.ctx.Get(p) == r2.ctx.Get(p)
    requires r3.ctx.Children(q + [name]) == Names(inner)
    requires r3.ctx.Status(q + [name]) == (if k + 1 == LeafSum(inner) then CompletedSuccessfully else ExecutingChildren)
    ensures NodeAt(r3.ctx, q + [name], inner, k + 1)
    ensures OnlyUnder(r.ctx, r3.ctx, q, [name])
    ensures r3.ctx.Get(q) == r1.ctx.Get(q)
  {
    var child := q + [name];
    assert forall p | Under(child, Names(inner), p) :: p != child;
    KidsFrame(r2.ctx, r3.ctx, child, inner, k + 1);
    assert Under(q, [name], child);
    UnderChild(q, name, Names(inner));
    assert q != child && !Under(child, Names(inner), q);
  }

  /** What lies under a child of q's child lies under that child. */
  lemma UnderChild(q: Path, name: NameAndLocation, names: seq<NameAndLocation>)
    ensures forall p | Under(q + [name], names, p) :: Under(q, [name], p)
  {
  }

  // Whole runs

  /** The run between two cycles, with k leaves of the test case behind it. */
  ghost predicate Between(r: Run, t: NameAndLocation, body: Body, k: nat) {
    && r.active == [] && r.unfinished == 0 && !r.ctx.fault
    && r.ctx.Children([]) == (if k == 0 then [] else [t])
    && NodeAt(r.ctx, [t], body, k)
  }

  /** Starting a cycle opens the test case's tracker below the root. */
  lemma CycleStarts(r: Run, t: NameAndLocation, body: Body, k: nat)
    requires Between(r, t, body, k) && k < Leaves(body)
    ensures
      var c, c' := r.ctx, r.ctx.StartCycle().Acquire(t);
      && c' == c.(trackers := c'.trackers, current := [t], runState := Running)
      && c'.Get([t]) == c.Get([t]).(runState := Executing)
      && c'.Get([]) == Tracker(ExecutingChildren, [t])
      && forall p | p != [] && p != [t] :: c'.Get(p) == c.Get(p)
  {
    assert [t] <= [t];
    assert NodeAt(r.ctx, [t], body, k);
    assert r.ctx.StartCycle().Get([t]) == r.ctx.Get([t]);
    assert !r.ctx.IsComplete([t]);
    TestCaseOpens(r.ctx.StartCycle(), t);
  }

  lemma TestCaseOpens(c: Context, t: NameAndLocation)
    requires c.current == [] && c.runState == Running && !c.IsComplete([t])
    requires c.Children([]) == [] || c.Children([]) == [t]
    ensures
      var c' := c.Acquire(t);
      && c' == c.(trackers := c'.trackers, current := [t])
      && c'.Get([t]) == c.Get([t]).(runState := Executing)
      && c'.Get([]) == Tracker(ExecutingChildren, [t])
      && forall p | p != [] && p != [t] :: c'.Get(p) == c.Get(p)
  {
    assert [] + [t] == [t] && Parent([t]) == [];
    var c0 := if t in c.Children([]) then c else c.AddChild([], t);
    assert c0.Get([t]) == c.Get([t]);
    var c1 := c0.SetStatus([t], Executing).(current := [t]);
    assert c0.Open([t]) == c1.OpenChild([]);
    assert c.Acquire(t) == c0.Open(c.current + [t]);
  }

  /** One cycle enters the way to the next leaf and leaves that leaf behind. */
  lemma CycleEntersNextLeaf(r: Run, t: NameAndLocation, body: Body, k: nat)
    requires NeverThrows(body) && Distinct(body) && k < Leaves(body)
    requires Between(r, t, body, k)
    ensures Between(r.Cycle(t, body), t, body, k + 1)
    ensures r.Cycle(t, body).entered == r.entered + Trail([t], body, k)
  {
    CycleStarts(r, t, body, k);
    var r1 := r.(ctx := r.ctx.StartCycle().Acquire(t));
    if LeafSum(body) > 0 {
      PassTestCase(r, r1, t, body, k);
    }
    BodyRuns(r1, t, body, k);
    TestCaseEnds(r1.Exec(body).0, t, body, k);
  }

  lemma BodyRuns(r: Run, t: NameAndLocation, body: Body, k: nat)
    requires NeverThrows(body) && Distinct(body) && k < Leaves(body)
    requires r.ctx.current == [t] && r.ctx.Status([t]) == Executing && r.ctx.Children([]) == [t]
    requires LeafSum(body) > 0 ==> Passing(r, [t], body, k, [])
    ensures
      var r' := r.Exec(body).0;
      && r' == r.(ctx := r'.ctx, entered := r.entered + Trail([t], body, k))
      && r'.ctx == r.ctx.(trackers := r'.ctx.trackers, runState := r'.ctx.runState)
      && r'.ctx.Children([]) == [t]
      && if LeafSum(body) == 0 then r'.ctx.Status([t]) == Executing
         else && r'.ctx.Status([t]) == ExecutingChildren && r'.ctx.Children([t]) == Names(body)
              && KidsAt(r'.ctx, [t], body, k + 1)
              && (r'.ctx.AllComplete([t], Names(body)) <==> k + 1 == LeafSum(body))
  {
    if LeafSum(body) == 0 {
      assert body == End;
    } else {
      ExecEntersNextLeaf(r, [t], body, k, []);
      AllCompleteWhenDone(r.Exec(body).0.ctx, [t], body, k + 1);
      assert [] != [t] && !Under([t], Names(body), []);
    }
  }

  lemma PassTestCase(r: Run, r1: Run, t: NameAndLocation, body: Body, k: nat)
    requires Between(r, t, body, k) && k < LeafSum(body)
    requires r1.ctx.current == [t] && r1.ctx.runState == Running
    requires r1.ctx.Get([t]) == r.ctx.Get([t]).(runState := Executing) && r1.ctx.Status([]) == ExecutingChildren
    requires forall p | p != [] && p != [t] :: r1.ctx.Get(p) == r.ctx.Get(p)
    ensures Passing(r1, [t], body, k, [])
  {
    assert [t] <= [t] && Parent([t]) == [];
    assert forall p | Under([t], Names(body), p) :: [t] <= p && p != [t] && p != [];
    if k == 0 {
      UntouchedKids(r1.ctx, [t], body);
    } else {
      KidsFrame(r.ctx, r1.ctx, [t], body, k);
    }
  }

  lemma TestCaseEnds(r2: Run, t: NameAndLocation, body: Body, k: nat)
    requires r2.active == [] && r2.unfinished == 0 && !r2.ctx.fault
    requires r2.ctx.current == [t] && r2.ctx.Children([]) == [t] && k < Leaves(body)
    requires if LeafSum(body) == 0 then r2.ctx.Status([t]) == Executing
             else && r2.ctx.Status([t]) == ExecutingChildren && r2.ctx.Children([t]) == Names(body)
                  && KidsAt(r2.ctx, [t], body, k + 1)
                  && (r2.ctx.AllComplete([t], Names(body)) <==> k + 1 == LeafSum(body))
    ensures Between(r2.(ctx := r2.ctx.Close([t])).HandleUnfinished(), t, body, k + 1)
    ensures r2.(ctx := r2.ctx.Close([t])).HandleUnfinished().entered == r2.entered
  {
    var c := r2.ctx.Close([t]);
    assert Parent([t]) == [];
    assert forall p | p != [t] :: c.Get(p) == r2.ctx.Get(p);
    if LeafSum(body) > 0 {
      KidsFrame(r2.ctx, c, [t], body, k + 1);
    }
    assert r2.(ctx := c).HandleUnfinished() == r2.(ctx := c);
  }

  /** k leaves are behind the run, and their ways are what it has entered. */
  ghost predicate Reached(r: Run, t: NameAndLocation, body: Body, k: nat) {
    Between(r, t, body, k) && r.entered == Trails([t], body, k)
  }

  lemma ReachedInitially(t: NameAndLocation, body: Body)
    ensures Reached(READY, t, body, 0)
  {
  }

  lemma ReachedNext(r: Run, t: NameAndLocation, body: Body, k: nat)
    requires NeverThrows(body) && Distinct(body) && k < Leaves(body)
    requires Reached(r, t, body, k)
    ensures Reached(r.Cycle(t, body), t, body, k + 1)
  {
    CycleEntersNextLeaf(r, t, body, k);
  }

  lemma {:induction false} CyclesReach(t: NameAndLocation, body: Body, k: nat)
    requires NeverThrows(body) && Distinct(body) && k <= Leaves(body)
    ensures Reached(Cycles(t, body, k), t, body, k)
  {
    if k == 0 {
      ReachedInitially(t, body);
    } else {
      CyclesReach(t, body, k - 1);
      ReachedNext(Cycles(t, body, k - 1), t, body, k - 1);
    }
  }

  /** After k cycles exactly the first k leaves have been run, along their ways in order, and the
      test case is done just when there are no more. */
  lemma CyclesEnterLeavesInOrder(t: NameAndLocation, body: Body, k: nat)
    requires NeverThrows(body) && Distinct(body) && k <= Leaves(body)
    ensures Cycles(t, body, k).entered == Trails([t], body, k)
    ensures Cycles(t, body, k).ctx.Status([t]) == CompletedSuccessfully <==> k == Leaves(body)
    ensures !Cycles(t, body, k).ctx.fault
  {
    CyclesReach(t, body, k);
    StatusBetween(Cycles(t, body, k), t, body, k);
  }

  lemma StatusBetween(r: Run, t: NameAndLocation, body: Body, k: nat)
    requires Between(r, t, body, k) && k <= Leaves(body)
    ensures r.ctx.Status([t]) == CompletedSuccessfully <==> k == Leaves(body)
  {
  }

  // The leaves, listed without reference to any tracker

  /** Leaf sections at or below q, left to right. */
  function LeafPaths(q: Path, inner: Body): seq<Path>
    decreases inner, 1
  {
    if inner.Section? then KidLeaves(q, inner) else [q]
  }

  /** Leaf sections of the sections of a body at q, left to right. */
  function KidLeaves(q: Path, body: Body): seq<Path>
    decreases body, 0
  {
    match body
    case Section(name, inner, rest) => LeafPaths(q + [name], inner) + KidLeaves(q, rest)
    case _ => []
  }

  lemma {:induction false} LeafCounts(q: Path, body: Body)
    ensures |KidLeaves(q, body)| == LeafSum(body)
    ensures |LeafPaths(q, body)| == Leaves(body)
    decreases body
  {
    if body.Section? {
      LeafCounts(q + [body.name], body.inner);
      LeafCounts(q, body.rest);
    }
  }

  lemma {:induction false} LeavesUnder(q: Path, body: Body)
    ensures forall p | p in KidLeaves(q, body) :: Under(q, Names(body), p)
    decreases body
  {
    if body.Section? {
      var child := q + [body.name];
      LeavesUnder(q, body.rest);
      LeavesUnder(child, body.inner);
      UnderChild(q, body.name, Names(body.inner));
      assert Under(q, [body.name], child);
      assert forall p | Under(q, [body.name], p) || Under(q, Names(body.rest), p) :: Under(q, Names(body), p);
    }
  }

  lemma {:induction false} TrailUnder(q: Path, body: Body, k: nat)
    ensures forall p | p in Trail(q, body, k) :: Under(q, Names(body), p)
    decreases body
  {
    if body.Section? {
      var child := q + [body.name];
      assert forall p | Under(q, [body.name], p) || Under(q, Names(body.rest), p) :: Under(q, Names(body), p);
      if k < Leaves(body.inner) {
        TrailUnder(child, body.inner, k);
        UnderChild(q, body.name, Names(body.inner));
        assert Under(q, [body.name], child);
      } else {
        TrailUnder(q, body.rest, k - Leaves(body.inner));
      }
    }
  }

  lemma {:induction false} LeavesDistinct(q: Path, body: Body)
    requires Distinct(body)
    ensures forall i, j | 0 <= i < j < |KidLeaves(q, body)| :: KidLeaves(q, body)[i] != KidLeaves(q, body)[j]
    decreases body
  {
    if body.Section? {
      var child := q + [body.name];
      var A, B := LeafPaths(child, body.inner), KidLeaves(q, body.rest);
      LeavesDistinct(q, body.rest);
      LeavesDistinct(child, body.inner);
      assert A == if body.inner.Section? then KidLeaves(child, body.inner) else [child];
      LeavesUnder(q, body.rest);
      LeafUnderChild(q, body.name, body.inner);
      assert forall p | p in A :: p !in B;
      assert KidLeaves(q, body) == A + B;
      DistinctAppend(A, B);
    }
  }

  lemma DistinctAppend(A: seq<Path>, B: seq<Path>)
    requires forall i, j | 0 <= i < j < |A| :: A[i] != A[j]
    requires forall i, j | 0 <= i < j < |B| :: B[i] != B[j]
    requires forall p | p in A :: p !in B
    ensures forall i, j | 0 <= i < j < |A + B| :: (A + B)[i] != (A + B)[j]
  {
    forall i, j | 0 <= i < j < |A + B| ensures (A + B)[i] != (A + B)[j] {
      if i < |A| <= j {
        assert (A + B)[i] in A && (A + B)[j] in B;
      }
    }
  }

  lemma LeafUnderChild(q: Path, name: NameAndLocation, inner: Body)
    ensures forall p | p in LeafPaths(q + [name], inner) :: Under(q, [name], p)
  {
    LeavesUnder(q + [name], inner);
    UnderChild(q, name, Names(inner));
    assert Under(q, [name], q + [name]);
  }

  /** Of the leaves, the k-th way enters the k-th and no other. */
  lemma {:induction false} TrailEntersOneLeaf(q: Path, body: Body, k: nat, p: Path)
    requires Distinct(body) && k < LeafSum(body) && p in KidLeaves(q, body)
    ensures |KidLeaves(q, body)| == LeafSum(body)
    ensures multiset(Trail(q, body, k))[p] == (if KidLeaves(q, body)[k] == p then 1 else 0)
    decreases body
  {
    LeafCounts(q, body);
    var name, inner, rest := body.name, body.inner, body.rest;
    var child := q + [name];
    var A, B := LeafPaths(child, inner), KidLeaves(q, rest);
    LeafCounts(child, inner);
    LeafUnderChild(q, name, inner);
    LeavesUnder(q, rest);
    assert p in A ==> p !in B;
    if k < Leaves(inner) {
      var tail := Trail(child, inner, k);
      assert Trail(q, body, k) == [child] + tail;
      assert KidLeaves(q, body)[k] == A[k];
      TrailUnder(child, inner, k);
      UnderChild(q, name, Names(inner));
      if inner.Section? {
        LeavesUnder(child, inner);
        if p in A {
          TrailEntersOneLeaf(child, inner, k, p);
        } else {
          assert p !in tail;
          assert Under(q, [name], child);
        }
      }
    } else {
      var tail := Trail(q, rest, k - Leaves(inner));
      assert KidLeaves(q, body)[k] == B[k - Leaves(inner)];
      TrailUnder(q, rest, k - Leaves(inner));
      if p in B {
        TrailEntersOneLeaf(q, rest, k - Leaves(inner), p);
      } else {
        assert p !in tail;
      }
    }
  }

  lemma CountAppend(A: seq<Path>, B: seq<Path>, p: Path)
    ensures multiset(A + B)[p] == multiset(A)[p] + multiset(B)[p]
  {
  }

  lemma DifferentLeaves(leaves: seq<Path>, i: nat, j: nat)
    requires i < |leaves| && j < |leaves|
    requires forall i', j' | 0 <= i' < j' < |leaves| :: leaves[i'] != leaves[j']
    ensures leaves[i] == leaves[j] <==> i == j
  {
  }

  lemma NextTrail(t: NameAndLocation, body: Body, leaves: seq<Path>, i: nat, k: nat)
    requires Distinct(body) && leaves == KidLeaves([t], body) && i < |leaves| == LeafSum(body) && k < |leaves|
    requires forall j, j' | 0 <= j < j' < |leaves| :: leaves[j] != leaves[j']
    ensures multiset(Trail([t], body, k))[leaves[i]] == (if i == k then 1 else 0)
  {
    DifferentLeaves(leaves, k, i);
    TrailEntersOneLeaf([t], body, k, leaves[i]);
  }

  ghost predicate EntersOnlyAt(t: NameAndLocation, body: Body, p: Path, i: nat, n: nat) {
    forall k | 0 <= k < n :: multiset(Trail([t], body, k))[p] == (if i == k then 1 else 0)
  }

  lemma {:induction false} TrailsEnterLeaf(t: NameAndLocation, body: Body, p: Path, i: nat, k: nat)
    requires EntersOnlyAt(t, body, p, i, k)
    ensures multiset(Trails([t], body, k))[p] == (if i < k then 1 else 0)
  {
    if k > 0 {
      TrailsEnterLeaf(t, body, p, i, k - 1);
      CountAppend(Trails([t], body, k - 1), Trail([t], body, k - 1), p);
    }
  }

  /** Every leaf section is entered exactly once: in its own cycle, not before and not after. */
  lemma LeafEnteredOnce(t: NameAndLocation, body: Body, i: nat, k: nat)
    requires NeverThrows(body) && Distinct(body) && i < LeafSum(body) && k <= LeafSum(body)
    ensures |KidLeaves([t], body)| == LeafSum(body)
    ensures multiset(Cycles(t, body, k).entered)[KidLeaves([t], body)[i]] == (if i < k then 1 else 0)
  {
    LeafCounts([t], body);
    LeavesDistinct([t], body);
    CyclesEnterLeavesInOrder(t, body, k);
    var leaves := KidLeaves([t], body);
    forall j: nat | j < k ensures multiset(Trail([t], body, j))[leaves[i]] == (if i == j then 1 else 0) {
      NextTrail(t, body, leaves, i, j);
    }
    TrailsEnterLeaf(t, body, leaves[i], i, k);
  }
}
