/** When the loops are told to wake: exactly when their earliest visible task is due, and over
    whole runs, with the wake-ups firing, always in time. */
module ScheduleAlarms {
  import opened Tasks
  import opened Schedule
  import opened ScheduleRuns

  ghost predicate Sees(s: State, q: int)
    requires Live(s, q)
  {
    exists t :: Visible(s, q, t)
  }

  /** The earliest task that the queue sees is due at this time. */
  ghost predicate Earliest(s: State, q: int, time: int)
    requires Live(s, q)
  {
    (exists t :: Visible(s, q, t) && t.time == time) && forall t :: Visible(s, q, t) ==> t.time >= time
  }

  /** From s to s', the loop of q is told to wake when the earliest task that q sees in `view` is
      due; without a loop or a task nothing is said. */
  ghost predicate Rings(view: State, s: State, s': State, q: int)
    requires Live(view, q) && q in s.entries && q in s'.entries
  {
    if s.entries[q].wakeable && Sees(view, q)
    then s'.entries[q].lastWake.Some? && Earliest(view, q, s'.entries[q].lastWake.value)
    else s'.entries[q].lastWake == s.entries[q].lastWake
  }

  /** The queues whose loops a section is to wake. */
  ghost predicate Rung(s: State, step: Step, r: int)
    requires Enabled(s, step)
  {
    match step
    case Register(q, _, _, _) => r == if s.entries[q].subsumedBy != UNMERGED then s.entries[q].subsumedBy else q
    case Next(q, _) => r == q
    case Merge(owner, subsumed) =>
      && r == owner && owner != subsumed
      && s.entries[owner].ownerOf == UNMERGED && s.entries[owner].subsumedBy == UNMERGED
      && s.entries[subsumed].ownerOf == UNMERGED && s.entries[subsumed].subsumedBy == UNMERGED
    case Unmerge(owner) => s.entries[owner].ownerOf != UNMERGED && (r == owner || r == s.entries[owner].ownerOf)
    case Resume(q) => r == q
    case _ => false
  }

  lemma SameView(s: State, s': State, r: int, t: Task)
    requires OnlyWakes(s, s') && Live(s, r)
    ensures Live(s', r) && (Visible(s', r, t) <==> Visible(s, r, t))
  {
  }

  lemma RingsAnyView(view: State, view': State, s: State, s': State, q: int)
    requires OnlyWakes(view, view') && Live(view, q) && q in s.entries && q in s'.entries && Rings(view, s, s', q)
    ensures Live(view', q) && Rings(view', s, s', q)
  {
    assert forall t :: Visible(view', q, t) <==> Visible(view, q, t);
    if s.entries[q].wakeable && Sees(view, q) {
      var t :| Visible(view, q, t) && t.time == s'.entries[q].lastWake.value;
      assert Visible(view', q, t);
    }
  }

  /** Waking a queue for its next task rings for it, and for no other. */
  lemma WakeRings(s: State, q: int, r: int)
    requires Inv(s) && q in s.entries && r in s.entries
    ensures var s' := WakeForNext(s, q);
            if r == q then Rings(s, s, s', r) else s'.entries[r] == s.entries[r]
  {
    PeekIsLeast(s, q);
    if HasPending(s, q) {
      assert Visible(s, q, Peek(s, q));
    }
  }

  /** s1 is s but for what a section changes before it wakes q. */
  lemma RingsAfter(s: State, s1: State, q: int, r: int)
    requires Inv(s1) && q in s1.entries && r in s1.entries && r in s.entries
    requires s1.entries[r].wakeable == s.entries[r].wakeable && s1.entries[r].lastWake == s.entries[r].lastWake
    ensures var s' := WakeForNext(s1, q);
            && Live(s', r)
            && if r == q then Rings(s', s, s', r) else s'.entries[r].lastWake == s.entries[r].lastWake
  {
    var s' := WakeForNext(s1, q);
    WakeRings(s1, q, r);
    WakeOnly(s1, q);
    if r == q {
      RingsAnyView(s1, s', s1, s', r);
    }
  }

  lemma RegisterRings(s: State, q: int, closure: int, time: int, grade: Grade, r: int)
    requires Inv(s) && q in s.entries && r in s.entries
    ensures var s' := Schedule.Register(s, q, closure, time, grade);
            && Live(s', r)
            && if r == LoopToWake(s, q) then Rings(s', s, s', r) else s'.entries[r].lastWake == s.entries[r].lastWake
  {
    var t := NewTask(s, closure, time, grade);
    var s1 := Posted(s, q, t);
    RegisterNumbered(s, q, t);
    SameLinks(s, s1);
    RingsAfter(s, s1, LoopToWake(s, q), r);
  }

  lemma NextRings(s: State, q: int, now: int, r: int)
    requires Inv(s) && q in s.entries && r in s.entries
    ensures var s' := Schedule.Next(s, q, now).0;
            if r == q then Rings(s, s, s', r) else s'.entries[r].lastWake == s.entries[r].lastWake
  {
    PeekIsLeast(s, q);
    WakeRings(s, q, r);
  }

  lemma MergeRings(s: State, owner: int, subsumed: int, r: int)
    requires Inv(s) && Enabled(s, Merge(owner, subsumed)) && r in s.entries
    ensures var s' := Schedule.Merge(s, owner, subsumed).0;
            && Live(s', r)
            && if Rung(s, Merge(owner, subsumed), r) then Rings(s', s, s', r)
               else s'.entries[r].lastWake == s.entries[r].lastWake
  {
    if Rung(s, Merge(owner, subsumed), owner) {
      LinkInv(s, owner, subsumed);
      RingsAfter(s, Link(s, owner, subsumed), owner, r);
    }
  }

  lemma UnmergeRings(s: State, owner: int, r: int)
    requires Inv(s) && owner in s.entries && r in s.entries
    ensures var s' := Schedule.Unmerge(s, owner).0;
            && Live(s', r)
            && if Rung(s, Unmerge(owner), r) then Rings(s', s, s', r) else s'.entries[r].lastWake == s.entries[r].lastWake
  {
    var subsumed := s.entries[owner].ownerOf;
    if subsumed != UNMERGED {
      UnlinkInv(s, owner);
      NotItself(s, owner);
      BothRing(s, Unlink(s, owner, subsumed), owner, subsumed, r);
    }
  }

  /** Two queues woken one after the other. */
  lemma BothRing(s: State, s1: State, q: int, p: int, r: int)
    requires Inv(s1) && q in s1.entries && p in s1.entries && p != q && r in s1.entries && r in s.entries
    requires s1.entries[r].wakeable == s.entries[r].wakeable && s1.entries[r].lastWake == s.entries[r].lastWake
    ensures Live(WakeForNext(s1, q), p)
    ensures var s' := WakeForNext(WakeForNext(s1, q), p);
            && Live(s', r)
            && if r == q || r == p then Rings(s', s, s', r) else s'.entries[r].lastWake == s.entries[r].lastWake
  {
    var s2 := WakeForNext(s1, q);
    WakeInv(s1, q);
    WakeOnly(s2, p);
    RingsAfter(s, s1, q, r);
    if r == q {
      var s' := WakeForNext(s2, p);
      WakeRings(s2, p, r);
      RingsUnchanged(s2, s, s2, s', r);
      RingsAnyView(s2, s', s, s', r);
    } else {
      RingsAfter(s, s2, p, r);
    }
  }

  lemma NotItself(s: State, owner: int)
    requires Matched(s) && owner in s.entries && s.entries[owner].ownerOf != UNMERGED
    ensures s.entries[owner].ownerOf != owner
  {
  }

  lemma RingsUnchanged(view: State, s: State, s1: State, s2: State, r: int)
    requires Live(view, r) && r in s.entries && r in s1.entries && r in s2.entries && Rings(view, s, s1, r)
    requires s2.entries[r].lastWake == s1.entries[r].lastWake
    ensures Rings(view, s, s2, r)
  {
  }

  lemma ResumeRings(s: State, q: int, r: int)
    requires Inv(s) && q in s.entries && s.Source(q).pauses > 0 && r in s.entries
    ensures var s' := Schedule.Resume(s, q);
            Live(s', r) && if r == q then Rings(s', s, s', r) else s'.entries[r].lastWake == s.entries[r].lastWake
  {
    UnpausedInv(s, q);
    RingsAfter(s, Unpaused(s, q), q, r);
  }

  /** What the section does to the wake-up of r. */
  ghost predicate RingsRight(s: State, step: Step, s': State, r: int)
    requires Enabled(s, step) && Live(s, r) && Live(s', r)
  {
    if !Rung(s, step, r) then s'.entries[r].lastWake == s.entries[r].lastWake
    else if step.Next? then Rings(s, s, s', r)
    else Rings(s', s, s', r)
  }

  /** Every section tells exactly the loops that it is to wake, exactly the time that their
      earliest visible task is due: for GetNextTaskToRun before it takes the task, for the others
      afterwards. */
  lemma StepRings(s: State, step: Step, r: int)
    requires Inv(s) && Enabled(s, step) && r in s.entries && r in Apply(s, step).entries
    ensures Live(Apply(s, step), r) && RingsRight(s, step, Apply(s, step), r)
  {
    StepInv(s, step);
    if step.Register? || step.Next? || step.Merge? {
      EarlyRings(s, step, Apply(s, step), r);
    } else {
      LateRings(s, step, Apply(s, step), r);
    }
  }

  lemma EarlyRings(s: State, step: Step, s': State, r: int)
    requires Inv(s) && Enabled(s, step) && s' == Apply(s, step) && r in s.entries && Live(s', r)
    requires step.Register? || step.Next? || step.Merge?
    ensures RingsRight(s, step, s', r)
  {
    match step
    case Register(q, closure, time, grade) => RegisterRings(s, q, closure, time, grade, r);
    case Next(q, now) => NextRings(s, q, now, r);
    case Merge(owner, subsumed) => MergeRings(s, owner, subsumed, r);
  }

  lemma LateRings(s: State, step: Step, s': State, r: int)
    requires Inv(s) && Enabled(s, step) && s' == Apply(s, step) && r in s.entries && Live(s', r)
    requires !step.Register? && !step.Next? && !step.Merge?
    ensures RingsRight(s, step, s', r)
  {
    match step
    case Unmerge(owner) => UnmergeRings(s, owner, r);
    case Resume(q) => ResumeRings(s, q, r);
    case _ =>
  }

  /** A loop that asked for a task and got none was told to wake for the earliest one it sees,
      which is not due yet. */
  lemma NextArms(s: State, q: int, now: int)
    requires Inv(s) && q in s.entries && s.entries[q].wakeable && Sees(s, q)
    ensures var (s', taken) := Schedule.Next(s, q, now);
            && s'.entries[q].lastWake.Some? && Earliest(s, q, s'.entries[q].lastWake.value)
            && (taken.None? ==> s'.entries[q].lastWake.value > now)
  {
    NextRings(s, q, now, q);
    NextIsLeast(s, q, now);
  }

  // ---------------------------------------------------------------- with the wake-ups firing

  /** What a section does depends on no wake-up before it. */
  lemma StepBlind(s: State, s': State, step: Step)
    requires Inv(s) && Inv(s') && OnlyWakes(s, s') && Enabled(s, step) && Enabled(s', step)
    ensures OnlyWakes(Apply(s, step), Apply(s', step))
  {
    match step
    case Register(q, closure, time, grade) => RegisterBlind(s, s', q, closure, time, grade);
    case Next(q, now) => NextBlind(s, s', q, now);
    case Merge(owner, subsumed) => MergeBlind(s, s', owner, subsumed);
    case Unmerge(owner) => UnmergeBlind(s, s', owner);
    case Resume(q) => ResumeBlind(s, s', q);
    case _ => OthersBlind(s, s', step);
  }

  lemma OthersBlind(s: State, s': State, step: Step)
    requires Inv(s) && Inv(s') && OnlyWakes(s, s') && Enabled(s, step) && Enabled(s', step)
    requires step.Create? || step.SetWakeable? || step.Pause? || step.DisposeTasks? || step.Dispose?
    ensures OnlyWakes(Apply(s, step), Apply(s', step))
  {
    if step.DisposeTasks? {
      DisposeTasksBlind(s, s', step.q);
    } else if step.Dispose? {
      DisposeBlind(s, s', step.q);
    } else if step.Pause? {
      PauseBlind(s, s', step.q);
    }
  }

  lemma PauseBlind(s: State, s': State, q: int)
    requires OnlyWakes(s, s') && q in s.entries
    ensures OnlyWakes(Schedule.Pause(s, q), Schedule.Pause(s', q))
  {
  }

  lemma DisposeTasksBlind(s: State, s': State, q: int)
    requires Matched(s) && Matched(s') && OnlyWakes(s, s') && q in s.entries
    ensures OnlyWakes(Schedule.DisposeTasks(s, q), Schedule.DisposeTasks(s', q))
  {
  }

  lemma DisposeBlind(s: State, s': State, q: int)
    requires OnlyWakes(s, s') && q in s.entries
    ensures OnlyWakes(Schedule.Dispose(s, q), Schedule.Dispose(s', q))
  {
  }

  lemma RegisterBlind(s: State, s': State, q: int, closure: int, time: int, grade: Grade)
    requires Matched(s) && Matched(s') && OnlyWakes(s, s') && q in s.entries
    ensures OnlyWakes(Schedule.Register(s, q, closure, time, grade), Schedule.Register(s', q, closure, time, grade))
  {
    var t := NewTask(s, closure, time, grade);
    PostedBlind(s, s', q, t);
    WakeBlind(Posted(s, q, t), Posted(s', q, t), LoopToWake(s, q));
  }

  lemma PostedBlind(s: State, s': State, q: int, t: Task)
    requires Matched(s) && OnlyWakes(s, s') && q in s.entries
    ensures OnlyWakes(Posted(s, q, t), Posted(s', q, t)) && Live(Posted(s, q, t), LoopToWake(s, q))
  {
  }

  lemma MergeBlind(s: State, s': State, owner: int, subsumed: int)
    requires Matched(s) && Matched(s') && OnlyWakes(s, s') && Enabled(s, Merge(owner, subsumed))
    ensures OnlyWakes(Schedule.Merge(s, owner, subsumed).0, Schedule.Merge(s', owner, subsumed).0)
  {
    if Rung(s, Merge(owner, subsumed), owner) {
      LinkBlind(s, s', owner, subsumed);
      WakeBlind(Link(s, owner, subsumed), Link(s', owner, subsumed), owner);
    }
  }

  lemma LinkBlind(s: State, s': State, owner: int, subsumed: int)
    requires OnlyWakes(s, s') && owner in s.entries && subsumed in s.entries && owner != subsumed
    ensures OnlyWakes(Link(s, owner, subsumed), Link(s', owner, subsumed)) && Live(Link(s, owner, subsumed), owner)
  {
  }

  lemma UnmergeBlind(s: State, s': State, owner: int)
    requires Matched(s) && Matched(s') && OnlyWakes(s, s') && owner in s.entries
    ensures OnlyWakes(Schedule.Unmerge(s, owner).0, Schedule.Unmerge(s', owner).0)
  {
    var subsumed := s.entries[owner].ownerOf;
    if subsumed != UNMERGED {
      var s1, s1' := Unlink(s, owner, subsumed), Unlink(s', owner, subsumed);
      UnlinkBlind(s, s', owner, subsumed);
      WakeBlind(s1, s1', owner);
      WakeOnly(s1, owner);
      WakeBlind(WakeForNext(s1, owner), WakeForNext(s1', owner), subsumed);
    }
  }

  lemma UnlinkBlind(s: State, s': State, owner: int, subsumed: int)
    requires Matched(s) && OnlyWakes(s, s') && owner in s.entries && subsumed == s.entries[owner].ownerOf && subsumed != UNMERGED
    ensures OnlyWakes(Unlink(s, owner, subsumed), Unlink(s', owner, subsumed))
    ensures Live(Unlink(s, owner, subsumed), owner) && Live(Unlink(s, owner, subsumed), subsumed)
  {
    UnlinkMatched(s, owner);
  }

  lemma ResumeBlind(s: State, s': State, q: int)
    requires Matched(s) && Matched(s') && OnlyWakes(s, s') && q in s.entries
    ensures OnlyWakes(Schedule.Resume(s, q), Schedule.Resume(s', q))
  {
    WakeBlind(Unpaused(s, q), Unpaused(s', q), q);
  }

  lemma WakeBlind(s: State, s': State, q: int)
    requires OnlyWakes(s, s') && Live(s, q)
    ensures Live(s', q) && OnlyWakes(WakeForNext(s, q), WakeForNext(s', q))
  {
  }

  lemma NextBlind(s: State, s': State, q: int, now: int)
    requires Inv(s) && Inv(s') && OnlyWakes(s, s') && q in s.entries
    ensures Schedule.Next(s, q, now).1 == Schedule.Next(s', q, now).1
    ensures OnlyWakes(Schedule.Next(s, q, now).0, Schedule.Next(s', q, now).0)
  {
    PeekBlind(s, s', q);
    if HasPending(s, q) {
      WakeBlind(s, s', q);
      WakeOnly(s, q);
      PopBlind(WakeForNext(s, q), WakeForNext(s', q), TopQueue(s, q));
    }
  }

  lemma PeekBlind(s: State, s': State, q: int)
    requires OnlyWakes(s, s') && Live(s, q)
    ensures Live(s', q) && HasPending(s', q) == HasPending(s, q)
    ensures HasPending(s, q) ==> TopQueue(s', q) == TopQueue(s, q) && Peek(s', q) == Peek(s, q)
  {
  }

  lemma PopBlind(s: State, s': State, r: int)
    requires OnlyWakes(s, s') && r in s.entries && s.Source(r).Valid() && !s.Source(r).IsEmpty()
    ensures OnlyWakes(PopTop(s, r), PopTop(s', r))
  {
  }

  /** In s, lastWake is the wake-up that is still to come.  `fired` are the queues whose loops
      have been woken and have not asked for a task since. */
  datatype Timed = Timed(s: State, fired: set<int>)

  datatype Event = Section(step: Step) | Fire(q: int, now: int)

  /** A wake-up fires when it is due. */
  predicate Possible(y: Timed, e: Event) {
    match e
    case Section(step) => Enabled(y.s, step)
    case Fire(q, now) => q in y.s.entries && WokenFor(y.s.entries[q].lastWake, now)
  }

  function Silenced(s: State, q: int): State
    requires q in s.entries
  {
    s.With(q, s.entries[q].(lastWake := None))
  }

  function Happen(y: Timed, e: Event): Timed
    requires Inv(y.s) && Possible(y, e)
  {
    match e
    case Section(step) => Timed(Apply(y.s, step), if step.Next? then y.fired - {step.q} else y.fired)
    case Fire(q, _) => Timed(Silenced(y.s, q), y.fired + {q})
  }

  /** A queue's loop is about to ask for a task, or will be woken before the earliest task that
      it sees is due. */
  ghost predicate InTime(y: Timed, q: int)
    requires Live(y.s, q)
  {
    Loopless(y.s, q) && (q !in y.fired ==> Woken(y.s, q))
  }

  ghost predicate OnTime(y: Timed)
    requires Matched(y.s)
  {
    forall q :: q in y.s.entries ==> InTime(y, q)
  }

  lemma LooplessStays(s: State, step: Step, r: int)
    requires Inv(s) && Enabled(s, step) && Live(Apply(s, step), r) && (r in s.entries ==> Loopless(s, r))
    ensures Loopless(Apply(s, step), r)
  {
    if r in s.entries {
      StepRings(s, step, r);
      LoopStays(s, step, Apply(s, step), r);
    }
  }

  /** No section takes a loop away. */
  lemma LoopStays(s: State, step: Step, s': State, r: int)
    requires Inv(s) && Enabled(s, step) && s' == Apply(s, step) && r in s.entries && r in s'.entries
    ensures s.entries[r].wakeable ==> s'.entries[r].wakeable
  {
    if step.Register? || step.Next? {
      LoopStaysEarly(s, step, s', r);
    } else if step.Merge? || step.Unmerge? {
      LoopStaysLinked(s, step, s', r);
    }
  }

  lemma LoopStaysEarly(s: State, step: Step, s': State, r: int)
    requires Inv(s) && Enabled(s, step) && s' == Apply(s, step) && r in s.entries && r in s'.entries
    requires step.Register? || step.Next?
    ensures s.entries[r].wakeable ==> s'.entries[r].wakeable
  {
  }

  lemma LoopStaysLinked(s: State, step: Step, s': State, r: int)
    requires Inv(s) && Enabled(s, step) && s' == Apply(s, step) && r in s.entries && r in s'.entries
    requires step.Merge? || step.Unmerge?
    ensures s.entries[r].wakeable ==> s'.entries[r].wakeable
  {
  }

  /** Asking for a task arms the loop for what is left, whatever was armed before. */
  lemma NextWakes(s: State, q: int, now: int)
    requires Inv(s) && q in s.entries
    ensures Live(Schedule.Next(s, q, now).0, q) && Woken(Schedule.Next(s, q, now).0, q)
  {
    NextInv(s, q, now);
    NextRings(s, q, now, q);
    NextHides(s, q, now);
  }

  lemma NextHides(s: State, q: int, now: int)
    requires Inv(s) && q in s.entries
    ensures Live(Schedule.Next(s, q, now).0, q)
    ensures forall t :: Visible(Schedule.Next(s, q, now).0, q, t) ==> Visible(s, q, t)
  {
    if HasPending(s, q) {
      WakeOnly(s, q);
      PopRemovesTop(s.Source(TopQueue(s, q)));
    }
  }

  /** The loop that a section forgets is not about to ask anyway. */
  ghost predicate ForgetsLoop(y: Timed, e: Event)
    requires Matched(y.s) && Possible(y, e)
  {
    e.Section? && Forgets(y.s, e.step) && Forgotten(y.s, e.step) !in y.fired
  }

  lemma SectionInTime(y: Timed, step: Step, r: int)
    requires Inv(y.s) && Enabled(y.s, step) && Live(Apply(y.s, step), r) && (r in y.s.entries ==> InTime(y, r))
    ensures InTime(Happen(y, Section(step)), r) <==> !(ForgetsLoop(y, Section(step)) && r == Forgotten(y.s, step))
  {
    LooplessStays(y.s, step, r);
    if step.Next? && r == step.q {
      NextWakes(y.s, step.q, step.now);
    } else if r !in y.fired {
      StepServed(y.s, step, r);
    }
  }

  lemma FireInTime(y: Timed, q: int, now: int, r: int)
    requires Inv(y.s) && Possible(y, Fire(q, now)) && r in y.s.entries && InTime(y, r)
    ensures Live(Silenced(y.s, q), r) && InTime(Happen(y, Fire(q, now)), r)
  {
    if r != q && r !in y.fired {
      StillWoken(y.s, Silenced(y.s, q), r);
    }
  }

  /** Every event keeps all loops in time, but for the two sections that forget a loop which is
      not about to ask. */
  lemma EventOnTime(y: Timed, e: Event)
    requires Inv(y.s) && OnTime(y) && Possible(y, e)
    ensures Inv(Happen(y, e).s)
    ensures OnTime(Happen(y, e)) <==> !ForgetsLoop(y, e)
  {
    var y' := Happen(y, e);
    match e
    case Fire(q, now) =>
      OnlyWakesKeeps(y.s, y'.s);
      forall r | r in y'.s.entries ensures InTime(y', r) {
        FireInTime(y, q, now, r);
      }
    case Section(step) =>
      StepInv(y.s, step);
      if ForgetsLoop(y, e) {
        StepForgets(y.s, step);
        SectionInTime(y, step, Forgotten(y.s, step));
      } else {
        forall r | r in y'.s.entries ensures InTime(y', r) {
          SectionInTime(y, step, r);
        }
      }
  }

  ghost predicate Follows(y: Timed, e: Event, y': Timed) {
    Inv(y.s) ==> Possible(y, e) && y' == Happen(y, e)
  }

  /** ys are the states along the events. */
  ghost predicate IsTimedRun(ys: seq<Timed>, es: seq<Event>) {
    && |ys| == |es| + 1 && ys[0] == Timed(INITIAL, {})
    && forall i :: 0 <= i < |es| ==> Follows(ys[i], es[i], ys[i + 1])
  }

  ghost predicate ForgetsBefore(ys: seq<Timed>, es: seq<Event>, k: nat) {
    exists i :: 0 <= i < k && i < |es| && i < |ys| && Inv(ys[i].s) && Possible(ys[i], es[i]) && ForgetsLoop(ys[i], es[i])
  }

  /** Unless one of the two happened, in every reachable state each queue with a loop and a task
      to run has a loop that is about to ask, or that will be woken in time. */
  lemma {:induction false} AlwaysOnTime(ys: seq<Timed>, es: seq<Event>, k: nat)
    requires IsTimedRun(ys, es) && k < |ys|
    ensures Inv(ys[k].s)
    ensures !ForgetsBefore(ys, es, k) ==> OnTime(ys[k])
  {
    if k > 0 {
      AlwaysOnTime(ys, es, k - 1);
      assert Follows(ys[k - 1], es[k - 1], ys[k]);
      FollowsOnTime(ys[k - 1], es[k - 1], ys[k]);
      NotBefore(ys, es, k - 1, k);
    }
  }

  lemma FollowsOnTime(y: Timed, e: Event, y': Timed)
    requires Inv(y.s) && Follows(y, e, y')
    ensures Inv(y'.s) && Possible(y, e)
    ensures OnTime(y) && !ForgetsLoop(y, e) ==> OnTime(y')
  {
    if OnTime(y) {
      EventOnTime(y, e);
    } else if e.Section? {
      StepInv(y.s, e.step);
    } else {
      OnlyWakesKeeps(y.s, y'.s);
    }
  }

  lemma NotBefore(ys: seq<Timed>, es: seq<Event>, i: nat, k: nat)
    requires k == i + 1 && k <= |es| && k < |ys| && Inv(ys[i].s) && Possible(ys[i], es[i])
    ensures !ForgetsBefore(ys, es, k) ==> !ForgetsBefore(ys, es, i) && !ForgetsLoop(ys[i], es[i])
  {
  }
}
