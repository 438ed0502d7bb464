/** What every step of the scheduler keeps, and with it every run. */
module ScheduleRuns {
  import opened Tasks
  import opened Schedule

  datatype Step =
    | Create
    | SetWakeable(q: int)
    | Register(q: int, closure: int, time: int, grade: Grade)
    | Next(q: int, now: int)
    | Merge(owner: int, subsumed: int)
    | Unmerge(owner: int)
    | Pause(q: int)
    | Resume(q: int)
    | DisposeTasks(q: int)
    | Dispose(q: int)

  /** What the source checks of its callers: live ids, no second wakeable, no resume without a
      pause, no disposal of a subsumed queue. */
  predicate Enabled(s: State, step: Step) {
    match step
    case Create => true
    case SetWakeable(q) => q in s.entries && !s.entries[q].wakeable
    case Register(q, _, _, _) => q in s.entries
    case Next(q, _) => q in s.entries
    case Merge(owner, subsumed) => owner != subsumed ==> owner in s.entries && subsumed in s.entries
    case Unmerge(owner) => owner in s.entries
    case Pause(q) => q in s.entries
    case Resume(q) => q in s.entries && s.Source(q).pauses > 0
    case DisposeTasks(q) => q in s.entries && s.entries[q].subsumedBy == UNMERGED
    case Dispose(q) => q in s.entries && s.entries[q].subsumedBy == UNMERGED
  }

  function Apply(s: State, step: Step): State
    requires Inv(s) && Enabled(s, step)
  {
    match step
    case Create => Schedule.Create(s)
    case SetWakeable(q) => Schedule.SetWakeable(s, q)
    case Register(q, closure, time, grade) => Schedule.Register(s, q, closure, time, grade)
    case Next(q, now) => Schedule.Next(s, q, now).0
    case Merge(owner, subsumed) => Schedule.Merge(s, owner, subsumed).0
    case Unmerge(owner) => Schedule.Unmerge(s, owner).0
    case Pause(q) => Schedule.Pause(s, q)
    case Resume(q) => Schedule.Resume(s, q)
    case DisposeTasks(q) => Schedule.DisposeTasks(s, q)
    case Dispose(q) => Schedule.Dispose(s, q)
  }

  // ---------------------------------------------------------------- the matching

  /** The states differ only in when loops were last woken. */
  ghost predicate OnlyWakes(s: State, s': State) {
    && s'.entries.Keys == s.entries.Keys && s'.counter == s.counter && s'.log == s.log
    && forall q :: q in s.entries ==> s'.entries[q] == s.entries[q].(lastWake := s'.entries[q].lastWake)
  }

  lemma WakeOnly(s: State, q: int)
    requires Live(s, q)
    ensures OnlyWakes(s, WakeForNext(s, q))
  {
  }

  lemma OnlyWakesKeeps(s: State, s': State)
    requires OnlyWakes(s, s')
    ensures Matched(s) ==> Matched(s')
    ensures Numbered(s) ==> Numbered(s')
  {
    if Matched(s) {
      SameLinks(s, s');
    }
    if Numbered(s) {
      NumberedLess(s, s');
    }
  }

  lemma WakeInv(s: State, q: int)
    requires Live(s, q)
    ensures Inv(WakeForNext(s, q)) <==> Inv(s)
  {
    WakeOnly(s, q);
    OnlyWakesKeeps(s, WakeForNext(s, q));
    OnlyWakesKeeps(WakeForNext(s, q), s);
  }

  lemma SameLinks(s: State, s': State)
    requires Matched(s) && s'.entries.Keys == s.entries.Keys && s'.counter == s.counter
    requires forall q :: q in s.entries ==>
      s'.entries[q].ownerOf == s.entries[q].ownerOf && s'.entries[q].subsumedBy == s.entries[q].subsumedBy
    ensures Matched(s')
  {
  }

  /** No queue has gained a task. */
  lemma NumberedLess(s: State, s': State)
    requires Numbered(s) && s'.log == s.log
    requires forall q :: q in s'.entries ==> s'.Source(q).Valid()
    requires forall q, t :: q in s'.entries && s'.Source(q).Has(t) ==> q in s.entries && s.Source(q).Has(t)
    ensures Numbered(s')
  {
  }

  // ---------------------------------------------------------------- step by step

  lemma CreateInv(s: State)
    requires Inv(s)
    ensures Inv(Schedule.Create(s))
  {
    NumberedLess(s, Schedule.Create(s));
  }

  lemma SetWakeableInv(s: State, q: int)
    requires Inv(s) && q in s.entries
    ensures Inv(Schedule.SetWakeable(s, q))
  {
    SameLinks(s, Schedule.SetWakeable(s, q));
    NumberedLess(s, Schedule.SetWakeable(s, q));
  }

  lemma RegisterInv(s: State, q: int, closure: int, time: int, grade: Grade)
    requires Inv(s) && q in s.entries
    ensures Inv(Schedule.Register(s, q, closure, time, grade))
  {
    var t := NewTask(s, closure, time, grade);
    var s1 := Posted(s, q, t);
    RegisterNumbered(s, q, t);
    SameLinks(s, s1);
    WakeInv(s1, LoopToWake(s, q));
  }

  lemma RegisterNumbered(s: State, q: int, t: Task)
    requires Numbered(s) && q in s.entries && t.order == |s.log|
    ensures Numbered(Posted(s, q, t))
  {
    RegisterAdds(s.Source(q), t);
  }

  lemma NextInv(s: State, q: int, now: int)
    requires Inv(s) && q in s.entries
    ensures Inv(Schedule.Next(s, q, now).0)
  {
    if HasPending(s, q) {
      WakeInv(s, q);
      if Peek(s, q).time <= now {
        PopInv(WakeForNext(s, q), TopQueue(s, q));
      }
    }
  }

  lemma PopInv(s: State, r: int)
    requires r in s.entries && s.Source(r).Valid() && !s.Source(r).IsEmpty()
    ensures Inv(s) ==> Inv(PopTop(s, r))
  {
    PopRemovesTop(s.Source(r));
    if Inv(s) {
      SameLinks(s, PopTop(s, r));
      NumberedLess(s, PopTop(s, r));
    }
  }

  lemma LinkMatched(s: State, owner: int, subsumed: int)
    requires Matched(s) && owner in s.entries && subsumed in s.entries && owner != subsumed
    requires s.entries[owner].ownerOf == UNMERGED && s.entries[owner].subsumedBy == UNMERGED
    requires s.entries[subsumed].ownerOf == UNMERGED && s.entries[subsumed].subsumedBy == UNMERGED
    ensures Matched(Link(s, owner, subsumed))
  {
  }

  lemma LinkInv(s: State, owner: int, subsumed: int)
    requires Inv(s) && owner in s.entries && subsumed in s.entries && owner != subsumed
    requires s.entries[owner].ownerOf == UNMERGED && s.entries[owner].subsumedBy == UNMERGED
    requires s.entries[subsumed].ownerOf == UNMERGED && s.entries[subsumed].subsumedBy == UNMERGED
    ensures Inv(Link(s, owner, subsumed))
  {
    LinkMatched(s, owner, subsumed);
    NumberedLess(s, Link(s, owner, subsumed));
  }

  lemma MergeInv(s: State, owner: int, subsumed: int)
    requires Inv(s) && (owner != subsumed ==> owner in s.entries && subsumed in s.entries)
    ensures Inv(Schedule.Merge(s, owner, subsumed).0)
  {
    if Schedule.Merge(s, owner, subsumed).0 != s {
      LinkInv(s, owner, subsumed);
      WakeInv(Link(s, owner, subsumed), owner);
    }
  }

  lemma UnlinkMatched(s: State, owner: int)
    requires Matched(s) && owner in s.entries && s.entries[owner].ownerOf != UNMERGED
    ensures Matched(Unlink(s, owner, s.entries[owner].ownerOf))
  {
  }

  lemma UnlinkInv(s: State, owner: int)
    requires Inv(s) && owner in s.entries && s.entries[owner].ownerOf != UNMERGED
    ensures Inv(Unlink(s, owner, s.entries[owner].ownerOf))
  {
    UnlinkMatched(s, owner);
    NumberedLess(s, Unlink(s, owner, s.entries[owner].ownerOf));
  }

  lemma UnmergeInv(s: State, owner: int)
    requires Inv(s) && owner in s.entries
    ensures Inv(Schedule.Unmerge(s, owner).0)
  {
    var subsumed := s.entries[owner].ownerOf;
    if subsumed != UNMERGED {
      var s1 := Unlink(s, owner, subsumed);
      UnlinkInv(s, owner);
      WakeInv(s1, owner);
      WakeInv(WakeForNext(s1, owner), subsumed);
    }
  }

  /** Another number of pauses matters to none of it. */
  lemma PausesInv(s: State, s': State, q: int, pauses: nat)
    requires q in s.entries && s.Source(q).pauses >= 0 && s' == WithPauses(s, q, pauses)
    ensures Inv(s') == Inv(s)
  {
    if Inv(s) {
      SameLinks(s, s');
      NumberedLess(s, s');
    }
    if Inv(s') {
      SameLinks(s', s);
      NumberedLess(s', s);
    }
  }

  lemma PauseInv(s: State, q: int)
    requires q in s.entries && s.Source(q).pauses >= 0
    ensures Inv(Schedule.Pause(s, q)) == Inv(s)
  {
    PausesInv(s, Schedule.Pause(s, q), q, s.Source(q).pauses + 1);
  }

  lemma ResumeInv(s: State, q: int)
    requires Matched(s) && q in s.entries && s.Source(q).pauses > 0
    ensures Inv(Schedule.Resume(s, q)) == Inv(s)
  {
    UnpausedInv(s, q);
    WakeInv(Unpaused(s, q), q);
  }

  lemma UnpausedInv(s: State, q: int)
    requires Matched(s) && q in s.entries && s.Source(q).pauses > 0
    ensures Live(Unpaused(s, q), q) && Inv(Unpaused(s, q)) == Inv(s)
  {
    PausesInv(s, Unpaused(s, q), q, s.Source(q).pauses - 1);
  }

  lemma ShutDownInv(s: State, q: int)
    requires Inv(s) && q in s.entries
    ensures Inv(ShutDown(s, q))
  {
    SameLinks(s, ShutDown(s, q));
    NumberedLess(s, ShutDown(s, q));
  }

  lemma DisposeTasksInv(s: State, q: int)
    requires Inv(s) && q in s.entries
    ensures Inv(Schedule.DisposeTasks(s, q))
  {
    ShutDownInv(s, q);
    if s.entries[q].ownerOf != UNMERGED {
      ShutDownInv(ShutDown(s, q), s.entries[q].ownerOf);
    }
  }

  lemma DisposeInv(s: State, q: int)
    requires Inv(s) && q in s.entries && s.entries[q].subsumedBy == UNMERGED
    ensures Inv(Schedule.Dispose(s, q))
  {
    NumberedLess(s, Schedule.Dispose(s, q));
  }

  /** Every step keeps the matching of the queues, the order of the heaps and the order numbers
      apart. */
  lemma StepInv(s: State, step: Step)
    requires Inv(s) && Enabled(s, step)
    ensures Inv(Apply(s, step))
  {
    if step.Create? || step.SetWakeable? || step.Register? || step.Next? || step.Merge? {
      EarlyStepInv(s, step);
    } else {
      LateStepInv(s, step);
    }
  }

  lemma EarlyStepInv(s: State, step: Step)
    requires Inv(s) && Enabled(s, step) && (step.Create? || step.SetWakeable? || step.Register? || step.Next? || step.Merge?)
    ensures Inv(Apply(s, step)) == Inv(s)
  {
    match step
    case Create => CreateInv(s);
    case SetWakeable(q) => SetWakeableInv(s, q);
    case Register(q, closure, time, grade) => RegisterInv(s, q, closure, time, grade);
    case Next(q, now) => NextInv(s, q, now);
    case Merge(owner, subsumed) => MergeInv(s, owner, subsumed);
  }

  lemma LateStepInv(s: State, step: Step)
    requires Inv(s) && Enabled(s, step)
    requires step.Unmerge? || step.Pause? || step.Resume? || step.DisposeTasks? || step.Dispose?
    ensures Inv(Apply(s, step)) == Inv(s)
  {
    match step
    case Unmerge(owner) => UnmergeInv(s, owner);
    case Pause(q) => PauseInv(s, q);
    case Resume(q) => ResumeInv(s, q);
    case DisposeTasks(q) => DisposeTasksInv(s, q);
    case Dispose(q) => DisposeInv(s, q);
  }

  // ---------------------------------------------------------------- waking

  /** The queue's loop was told to wake no later than its earliest visible task is due. */
  ghost predicate Woken(s: State, q: int)
    requires Live(s, q)
  {
    s.entries[q].wakeable ==> forall t :: Visible(s, q, t) ==> WokenFor(s.entries[q].lastWake, t.time)
  }

  predicate WokenFor(lastWake: Option<int>, time: int) {
    lastWake.Some? && lastWake.value <= time
  }

  /** No queue with a loop waits for a task that the loop was not woken for. */
  ghost predicate NoLostWakeup(s: State)
    requires Matched(s)
  {
    forall q :: q in s.entries ==> Served(s, q)
  }

  /** The queue sees no more tasks than before, and was woken no later. */
  lemma StillWoken(s: State, s': State, q: int)
    requires Live(s, q) && Live(s', q) && Woken(s, q)
    requires s'.entries[q].wakeable == s.entries[q].wakeable
    requires s'.entries[q].lastWake == s.entries[q].lastWake
    requires forall t :: Visible(s', q, t) ==> Visible(s, q, t)
    ensures Woken(s', q)
  {
  }

  /** What NoLostWakeup says of one queue. */
  ghost predicate Served(s: State, r: int)
    requires Live(s, r)
  {
    Woken(s, r) && Loopless(s, r)
  }

  predicate Loopless(s: State, r: int)
    requires r in s.entries
  {
    !s.entries[r].wakeable ==> s.entries[r].lastWake == None
  }

  /** Waking a queue for its next task makes it served. */
  lemma WakesIt(s: State, q: int)
    requires Live(s, q) && Loopless(s, q)
    ensures Live(WakeForNext(s, q), q) && (Inv(s) ==> Served(WakeForNext(s, q), q))
  {
    var s' := WakeForNext(s, q);
    if Inv(s) {
      PeekIsLeast(s, q);
      assert forall t :: Visible(s', q, t) <==> Visible(s, q, t);
    }
  }

  /** ... and changes nothing for the others. */
  lemma WakesNoOther(s: State, q: int, r: int)
    requires Live(s, q) && Live(s, r) && r != q
    ensures Live(WakeForNext(s, q), r) && (Served(WakeForNext(s, q), r) <==> Served(s, r))
    ensures Loopless(WakeForNext(s, q), r) <==> Loopless(s, r)
  {
    var s' := WakeForNext(s, q);
    assert forall t :: Visible(s', r, t) <==> Visible(s, r, t);
  }

  lemma WakeServes(s: State, q: int, r: int)
    requires Live(s, q) && Live(s, r) && (if r == q then Loopless(s, q) else Served(s, r))
    ensures Live(WakeForNext(s, q), r) && (Inv(s) ==> Served(WakeForNext(s, q), r))
  {
    if r == q {
      WakesIt(s, q);
    } else {
      WakesNoOther(s, q, r);
    }
  }

  lemma CreateServed(s: State, r: int)
    requires Inv(s) && r in Schedule.Create(s).entries && (r in s.entries ==> Served(s, r))
    ensures Live(Schedule.Create(s), r) && Served(Schedule.Create(s), r)
  {
    if r != s.counter {
      StillWoken(s, Schedule.Create(s), r);
    }
  }

  lemma RegisterServed(s: State, q: int, closure: int, time: int, grade: Grade, r: int)
    requires Inv(s) && q in s.entries && r in s.entries && Served(s, r)
    ensures Live(Schedule.Register(s, q, closure, time, grade), r) && Served(Schedule.Register(s, q, closure, time, grade), r)
  {
    var t := NewTask(s, closure, time, grade);
    var s1 := Posted(s, q, t);
    RegisterNumbered(s, q, t);
    SameLinks(s, s1);
    if r != LoopToWake(s, q) {
      StillWoken(s, s1, r);
    }
    WakeServes(s1, LoopToWake(s, q), r);
  }

  lemma NextServed(s: State, q: int, now: int, r: int)
    requires Inv(s) && q in s.entries && r in s.entries && Served(s, r)
    ensures Live(Schedule.Next(s, q, now).0, r) && Served(Schedule.Next(s, q, now).0, r)
  {
    if HasPending(s, q) {
      WakeServes(s, q, r);
      WakeInv(s, q);
      if Peek(s, q).time <= now {
        PopServed(WakeForNext(s, q), TopQueue(s, q), r);
      }
    }
  }

  lemma PopServed(s: State, p: int, r: int)
    requires Live(s, r) && p in s.entries && s.Source(p).Valid() && !s.Source(p).IsEmpty()
    ensures Live(PopTop(s, p), r) && (Served(s, r) ==> Served(PopTop(s, p), r))
  {
    PopRemovesTop(s.Source(p));
    if Served(s, r) {
      StillWoken(s, PopTop(s, p), r);
    }
  }

  lemma MergeServed(s: State, owner: int, subsumed: int, r: int)
    requires Inv(s) && r in s.entries && Served(s, r)
    requires owner != subsumed ==> owner in s.entries && subsumed in s.entries
    ensures Live(Schedule.Merge(s, owner, subsumed).0, r) && Served(Schedule.Merge(s, owner, subsumed).0, r)
  {
    if Schedule.Merge(s, owner, subsumed).0 != s {
      LinkInv(s, owner, subsumed);
      LinkServed(s, owner, subsumed, r);
      WakeServes(Link(s, owner, subsumed), owner, r);
    }
  }

  lemma LinkServed(s: State, owner: int, subsumed: int, r: int)
    requires Inv(s) && r in s.entries && Served(s, r) && owner != subsumed
    requires owner in s.entries && subsumed in s.entries && Inv(Link(s, owner, subsumed))
    requires s.entries[owner].ownerOf == UNMERGED && s.entries[owner].subsumedBy == UNMERGED
    requires s.entries[subsumed].ownerOf == UNMERGED && s.entries[subsumed].subsumedBy == UNMERGED
    ensures Loopless(Link(s, owner, subsumed), r) && (r != owner ==> Served(Link(s, owner, subsumed), r))
  {
    if r != owner {
      StillWoken(s, Link(s, owner, subsumed), r);
    }
  }

  lemma UnmergeServed(s: State, owner: int, r: int)
    requires Inv(s) && owner in s.entries && r in s.entries && Served(s, r)
    ensures Live(Schedule.Unmerge(s, owner).0, r) && Served(Schedule.Unmerge(s, owner).0, r)
  {
    var subsumed := s.entries[owner].ownerOf;
    if subsumed != UNMERGED {
      var s1 := Unlink(s, owner, subsumed);
      UnlinkInv(s, owner);
      UnlinkServed(s, owner, r);
      WakeInv(s1, owner);
      if r == subsumed {
        WakesNoOther(s1, owner, r);
      } else {
        WakeServes(s1, owner, r);
      }
      WakeServes(WakeForNext(s1, owner), subsumed, r);
    }
  }

  lemma UnlinkServed(s: State, owner: int, r: int)
    requires Inv(s) && r in s.entries && Served(s, r) && owner in s.entries && s.entries[owner].ownerOf != UNMERGED
    requires Inv(Unlink(s, owner, s.entries[owner].ownerOf))
    ensures var s1 := Unlink(s, owner, s.entries[owner].ownerOf);
            Loopless(s1, r) && (r != owner && r != s.entries[owner].ownerOf ==> Served(s1, r))
  {
    if r != owner && r != s.entries[owner].ownerOf {
      StillWoken(s, Unlink(s, owner, s.entries[owner].ownerOf), r);
    }
  }

  lemma PauseServed(s: State, q: int, r: int)
    requires Inv(s) && q in s.entries && r in s.entries && Served(s, r)
    ensures Live(Schedule.Pause(s, q), r) && Served(Schedule.Pause(s, q), r)
  {
    StillWoken(s, Schedule.Pause(s, q), r);
  }

  lemma DisposeTasksServed(s: State, q: int, r: int)
    requires Inv(s) && q in s.entries && r in s.entries && Served(s, r)
    ensures Live(Schedule.DisposeTasks(s, q), r) && Served(Schedule.DisposeTasks(s, q), r)
  {
    StillWoken(s, Schedule.DisposeTasks(s, q), r);
  }

  lemma DisposeServed(s: State, q: int, r: int)
    requires Inv(s) && q in s.entries && s.entries[q].subsumedBy == UNMERGED
    requires r in Schedule.Dispose(s, q).entries && Served(s, r)
    ensures Live(Schedule.Dispose(s, q), r) && Served(Schedule.Dispose(s, q), r)
  {
    StillWoken(s, Schedule.Dispose(s, q), r);
  }

  lemma SetWakeableServed(s: State, q: int, r: int)
    requires Inv(s) && q in s.entries && !s.entries[q].wakeable && r in s.entries && Served(s, r)
    ensures Live(Schedule.SetWakeable(s, q), r)
    ensures Served(Schedule.SetWakeable(s, q), r) <==> !(r == q && HasPending(s, q))
  {
    PeekIsLeast(s, q);
    var s' := Schedule.SetWakeable(s, q);
    assert forall t :: Visible(s', r, t) <==> Visible(s, r, t);
    assert r == q ==> s.entries[q].lastWake == None;
  }

  /** Resuming the last pause of a subsumed queue lets its owner see the queue's secondary
      tasks, and wakes nobody for them. */
  ghost predicate Unannounced(s: State, q: int)
    requires Matched(s) && q in s.entries
  {
    var o := s.entries[q].subsumedBy;
    && o != UNMERGED && s.entries[o].wakeable && s.Source(q).pauses == 1
    && exists t :: t in s.Source(q).secondary && !WokenFor(s.entries[o].lastWake, t.time)
  }

  lemma ResumeServed(s: State, q: int, r: int)
    requires Inv(s) && q in s.entries && s.Source(q).pauses > 0 && r in s.entries && Served(s, r)
    ensures Live(Schedule.Resume(s, q), r)
    ensures Served(Schedule.Resume(s, q), r) <==> !(r == s.entries[q].subsumedBy && Unannounced(s, q))
  {
    if r == q {
      ResumedSelf(s, q);
      NotItsOwner(s, q);
    } else {
      ResumedOther(s, Unpaused(s, q), q, r);
    }
  }

  lemma ResumedSelf(s: State, q: int)
    requires Matched(s) && q in s.entries && s.Source(q).pauses > 0 && Loopless(s, q)
    ensures Live(Schedule.Resume(s, q), q) && (Inv(s) ==> Served(Schedule.Resume(s, q), q))
  {
    UnpausedInv(s, q);
    WakesIt(Unpaused(s, q), q);
  }

  lemma NotItsOwner(s: State, q: int)
    requires Matched(s) && q in s.entries
    ensures s.entries[q].subsumedBy != q
  {
  }

  lemma ResumedOther(s: State, s1: State, q: int, r: int)
    requires Inv(s) && q in s.entries && s.Source(q).pauses > 0 && r in s.entries && r != q && Served(s, r)
    requires s1 == Unpaused(s, q)
    ensures Live(s1, q) && Live(WakeForNext(s1, q), r)
    ensures Served(WakeForNext(s1, q), r) <==> !(r == s.entries[q].subsumedBy && Unannounced(s, q))
  {
    ResumedServed(s, q, r);
    WakesNoOther(s1, q, r);
  }

  lemma ResumedServed(s: State, q: int, r: int)
    requires Inv(s) && q in s.entries && s.Source(q).pauses > 0 && r in s.entries && r != q && Served(s, r)
    ensures var s1 := Unpaused(s, q);
            Live(s1, r) && (Served(s1, r) <==> !(r == s.entries[q].subsumedBy && Unannounced(s, q)))
  {
    var s1 := Unpaused(s, q);
    if r != s.entries[q].subsumedBy {
      StillWoken(s, s1, r);
    } else {
      if Unannounced(s, q) {
        var t :| t in s.Source(q).secondary && !WokenFor(s.entries[r].lastWake, t.time);
        assert Visible(s1, r, t);
      } else {
        forall t | Visible(s1, r, t) && s.entries[r].wakeable ensures WokenFor(s.entries[r].lastWake, t.time) {
          assert Visible(s, r, t) || t in s.Source(q).secondary;
        }
      }
    }
  }

  /** The two steps after which a task can wait unannounced. */
  ghost predicate Forgets(s: State, step: Step)
    requires Matched(s) && Enabled(s, step)
  {
    match step
    case SetWakeable(q) => HasPending(s, q)
    case Resume(q) => Unannounced(s, q)
    case _ => false
  }

  /** The queue whose task then waits. */
  function Forgotten(s: State, step: Step): int
    requires Enabled(s, step)
  {
    match step
    case SetWakeable(q) => q
    case Resume(q) => s.entries[q].subsumedBy
    case _ => UNMERGED
  }

  lemma StepServed(s: State, step: Step, r: int)
    requires Inv(s) && Enabled(s, step) && Live(Apply(s, step), r) && (r in s.entries ==> Served(s, r))
    ensures Served(Apply(s, step), r) <==> !(Forgets(s, step) && r == Forgotten(s, step))
  {
    if !step.Create? && !step.Dispose? {
      SameQueues(s, step);
    }
    match step
    case Create => CreateServed(s, r);
    case SetWakeable(q) => SetWakeableServed(s, q, r);
    case Register(q, closure, time, grade) => RegisterServed(s, q, closure, time, grade, r);
    case Next(q, now) => NextServed(s, q, now, r);
    case Merge(owner, subsumed) => MergeServed(s, owner, subsumed, r);
    case Unmerge(owner) => UnmergeServed(s, owner, r);
    case Pause(q) => PauseServed(s, q, r);
    case Resume(q) => ResumeServed(s, q, r);
    case DisposeTasks(q) => DisposeTasksServed(s, q, r);
    case Dispose(q) => DisposeServed(s, q, r);
  }

  lemma SameQueues(s: State, step: Step)
    requires Inv(s) && Enabled(s, step) && !step.Create? && !step.Dispose?
    ensures Apply(s, step).entries.Keys == s.entries.Keys
  {
  }

  lemma StepForgets(s: State, step: Step)
    requires Inv(s) && Enabled(s, step) && Forgets(s, step)
    ensures Forgotten(s, step) in s.entries && Live(Apply(s, step), Forgotten(s, step))
  {
    SameQueues(s, step);
    StepInv(s, step);
  }

  /** No step loses a wake-up, except exactly those two. */
  lemma StepWakes(s: State, step: Step)
    requires Inv(s) && NoLostWakeup(s) && Enabled(s, step)
    ensures Inv(Apply(s, step))
    ensures NoLostWakeup(Apply(s, step)) <==> !Forgets(s, step)
  {
    StepInv(s, step);
    var s' := Apply(s, step);
    if Forgets(s, step) {
      StepForgets(s, step);
      StepServed(s, step, Forgotten(s, step));
    } else {
      forall r | r in s'.entries ensures Served(s', r) {
        StepServed(s, step, r);
      }
    }
  }

  // ---------------------------------------------------------------- where every task is

  /** The n-th registered task waits in its queue. */
  predicate Pending(s: State, n: nat) {
    n < |s.log| && s.log[n].q in s.entries && s.Source(s.log[n].q).Has(s.log[n].t)
  }

  /** The tasks a step hands out, by number. */
  function HandedBy(s: State, step: Step): set<nat>
    requires Inv(s) && Enabled(s, step)
  {
    if step.Next? && Schedule.Next(s, step.q, step.now).1.Some?
    then {Schedule.Next(s, step.q, step.now).1.value.order}
    else {}
  }

  /** The tasks a step drops: those of the queue it disposes of, and of the queue that one
      subsumed. */
  function DroppedBy(s: State, step: Step): set<nat>
    requires Enabled(s, step)
  {
    if step.DisposeTasks? || step.Dispose?
    then set n: nat | n < |s.log| && Pending(s, n) && (s.log[n].q == step.q || s.log[n].q == s.entries[step.q].ownerOf)
    else {}
  }

  lemma SamePending(s: State, s': State, n: nat)
    requires s'.log == s.log && s'.entries.Keys == s.entries.Keys
    requires forall q :: q in s.entries ==> s'.Source(q).primary == s.Source(q).primary && s'.Source(q).secondary == s.Source(q).secondary
    ensures Pending(s', n) <==> Pending(s, n)
  {
  }

  lemma RegisterPending(s: State, q: int, closure: int, time: int, grade: Grade, n: nat)
    requires Inv(s) && q in s.entries
    ensures var s' := Schedule.Register(s, q, closure, time, grade);
            && s'.log == s.log + [Posting(q, NewTask(s, closure, time, grade))]
            && (Pending(s', n) <==> Pending(s, n) || n == |s.log|)
  {
    var t := NewTask(s, closure, time, grade);
    var s1 := Posted(s, q, t);
    RegisterAdds(s.Source(q), t);
    RegisterNumbered(s, q, t);
    SameLinks(s, s1);
    WakeOnly(s1, LoopToWake(s, q));
    SamePending(s1, Schedule.Register(s, q, closure, time, grade), n);
  }

  lemma NextPending(s: State, q: int, now: int, n: nat)
    requires Inv(s) && q in s.entries
    ensures var (s', taken) := Schedule.Next(s, q, now);
            && s'.log == s.log
            && (Pending(s', n) <==> Pending(s, n) && !(taken.Some? && taken.value.order == n))
            && (taken.Some? ==> Pending(s, taken.value.order) && s.log[taken.value.order].t == taken.value)
  {
    if HasPending(s, q) {
      var s1 := WakeForNext(s, q);
      WakeOnly(s, q);
      SamePending(s, s1, n);
      if Peek(s, q).time <= now {
        PopPending(s1, TopQueue(s, q), n);
        HeapTop(s.Source(TopQueue(s, q)));
      }
    }
  }

  lemma HeapTop(source: Source)
    requires source.Valid() && !source.IsEmpty()
    ensures source.Has(source.Top())
  {
  }

  lemma PopPending(s: State, r: int, n: nat)
    requires Numbered(s) && r in s.entries && !s.Source(r).IsEmpty()
    ensures Pending(PopTop(s, r), n) <==> Pending(s, n) && s.Source(r).Top().order != n
  {
    PopRemovesTop(s.Source(r));
    HeapTop(s.Source(r));
  }

  lemma LinksPending(s: State, step: Step, n: nat)
    requires Inv(s) && Enabled(s, step) && (step.Merge? || step.Unmerge? || step.Resume? || step.Pause? || step.SetWakeable?)
    ensures Apply(s, step).log == s.log && (Pending(Apply(s, step), n) <==> Pending(s, n))
  {
    match step
    case Merge(owner, subsumed) => MergePending(s, owner, subsumed, n);
    case Unmerge(owner) => UnmergePending(s, owner, n);
    case Resume(q) =>
      var s1 := Unpaused(s, q);
      SameLinks(s, s1);
      SamePending(s, s1, n);
      WakePending(s1, q, n);
    case Pause(q) => SamePending(s, Apply(s, step), n);
    case SetWakeable(q) => SamePending(s, Apply(s, step), n);
  }

  lemma WakePending(s: State, q: int, n: nat)
    requires Live(s, q)
    ensures WakeForNext(s, q).log == s.log && (Pending(WakeForNext(s, q), n) <==> Pending(s, n))
  {
    WakeOnly(s, q);
    SamePending(s, WakeForNext(s, q), n);
  }

  lemma MergePending(s: State, owner: int, subsumed: int, n: nat)
    requires Inv(s) && (owner != subsumed ==> owner in s.entries && subsumed in s.entries)
    ensures var s' := Schedule.Merge(s, owner, subsumed).0; s'.log == s.log && (Pending(s', n) <==> Pending(s, n))
  {
    if Schedule.Merge(s, owner, subsumed).0 != s {
      SamePending(s, Link(s, owner, subsumed), n);
      WakePending(Link(s, owner, subsumed), owner, n);
    }
  }

  lemma UnmergePending(s: State, owner: int, n: nat)
    requires Inv(s) && owner in s.entries
    ensures var s' := Schedule.Unmerge(s, owner).0; s'.log == s.log && (Pending(s', n) <==> Pending(s, n))
  {
    var subsumed := s.entries[owner].ownerOf;
    if subsumed != UNMERGED {
      var s1 := Unlink(s, owner, subsumed);
      SamePending(s, s1, n);
      WakePending(s1, owner, n);
      WakePending(WakeForNext(s1, owner), subsumed, n);
    }
  }

  lemma ShutDownPending(s: State, q: int, n: nat)
    requires q in s.entries
    ensures Pending(ShutDown(s, q), n) <==> Pending(s, n) && s.log[n].q != q
  {
  }

  lemma TasksDisposed(s: State, q: int, n: nat)
    requires Matched(s) && q in s.entries
    ensures Schedule.DisposeTasks(s, q).log == s.log
    ensures Pending(Schedule.DisposeTasks(s, q), n) <==> Pending(s, n) && s.log[n].q != q && s.log[n].q != s.entries[q].ownerOf
  {
    ShutDownPending(s, q, n);
    if s.entries[q].ownerOf != UNMERGED {
      ShutDownPending(ShutDown(s, q), s.entries[q].ownerOf, n);
    }
  }

  lemma QueuesDisposed(s: State, q: int, n: nat)
    requires Matched(s) && q in s.entries
    ensures Schedule.Dispose(s, q).log == s.log
    ensures Pending(Schedule.Dispose(s, q), n) <==> Pending(s, n) && s.log[n].q != q && s.log[n].q != s.entries[q].ownerOf
  {
  }

  lemma DisposePending(s: State, step: Step, n: nat)
    requires Inv(s) && Enabled(s, step) && (step.DisposeTasks? || step.Dispose?)
    ensures Apply(s, step).log == s.log && (Pending(Apply(s, step), n) <==> Pending(s, n) && n !in DroppedBy(s, step))
  {
    if step.DisposeTasks? {
      TasksDisposed(s, step.q, n);
    } else {
      QueuesDisposed(s, step.q, n);
    }
  }

  /** Task n waits in s' if it did in s, or is new, unless the step hands it out or drops it. */
  predicate Moves(s: State, s': State, step: Step, n: nat)
    requires Inv(s) && Enabled(s, step)
  {
    && s.log <= s'.log
    && |s'.log| == |s.log| + (if step.Register? then 1 else 0)
    && (Pending(s', n) <==> (Pending(s, n) || |s.log| <= n < |s'.log|) && n !in HandedBy(s, step) && n !in DroppedBy(s, step))
  }

  lemma RegisterMoves(s: State, s': State, step: Step, n: nat)
    requires Inv(s) && Enabled(s, step) && step.Register? && s' == Apply(s, step)
    ensures Moves(s, s', step, n)
  {
    RegisterPending(s, step.q, step.closure, step.time, step.grade, n);
  }

  lemma NextMoves(s: State, s': State, step: Step, n: nat)
    requires Inv(s) && Enabled(s, step) && step.Next? && s' == Apply(s, step)
    ensures Moves(s, s', step, n)
  {
    NextPending(s, step.q, step.now, n);
  }

  lemma OthersMove(s: State, s': State, step: Step, n: nat)
    requires Inv(s) && Enabled(s, step) && !step.Register? && !step.Next? && s' == Apply(s, step)
    ensures Moves(s, s', step, n)
  {
    if step.DisposeTasks? || step.Dispose? {
      DisposePending(s, step, n);
    } else if step.Create? {
      CreatePending(s, n);
    } else {
      LinksPending(s, step, n);
    }
  }

  /** A task waits after a step if it did before, or is new, unless the step hands it out or
      drops it; and what a step hands out was waiting. */
  lemma StepPending(s: State, step: Step, n: nat)
    requires Inv(s) && Enabled(s, step)
    ensures Moves(s, Apply(s, step), step, n)
    ensures n in HandedBy(s, step) ==> Pending(s, n)
  {
    var s' := Apply(s, step);
    if step.Register? {
      RegisterMoves(s, s', step, n);
    } else if step.Next? {
      NextMoves(s, s', step, n);
      NextPending(s, step.q, step.now, n);
    } else {
      OthersMove(s, s', step, n);
    }
  }

  lemma CreatePending(s: State, n: nat)
    requires Matched(s) && Numbered(s)
    ensures Schedule.Create(s).log == s.log && (Pending(Schedule.Create(s), n) <==> Pending(s, n))
  {
  }

  /** A run so far: the state, and the numbers of the tasks handed out and dropped. */
  datatype History = History(s: State, handed: set<nat>, dropped: set<nat>)

  const START: History := History(INITIAL, {}, {})

  function Extend(h: History, step: Step): History
    requires Inv(h.s) && Enabled(h.s, step)
  {
    History(Apply(h.s, step), h.handed + HandedBy(h.s, step), h.dropped + DroppedBy(h.s, step))
  }

  /** Every registered task waits, was handed out, or was dropped, and only one of them. */
  ghost predicate Conserved(h: History) {
    && (forall n :: n in h.handed || n in h.dropped ==> n < |h.s.log|)
    && (forall n: nat :: n < |h.s.log| ==> InOnePlace(h, n))
  }

  predicate InOnePlace(h: History, n: nat) {
    && (Pending(h.s, n) || n in h.handed || n in h.dropped)
    && !(Pending(h.s, n) && (n in h.handed || n in h.dropped))
    && !(n in h.handed && n in h.dropped)
  }

  lemma StepConserves(h: History, step: Step)
    requires Inv(h.s) && Conserved(h) && Enabled(h.s, step)
    ensures Conserved(Extend(h, step))
  {
    var h' := Extend(h, step);
    forall n: nat | n < |h'.s.log| ensures InOnePlace(h', n) {
      StepPending(h.s, step, n);
      if n < |h.s.log| {
        assert InOnePlace(h, n);
      } else {
        assert !Pending(h.s, n);
      }
    }
    HandedWaited(h.s, step);
  }

  lemma HandedWaited(s: State, step: Step)
    requires Inv(s) && Enabled(s, step)
    ensures s.log <= Apply(s, step).log && forall m :: m in HandedBy(s, step) ==> Pending(s, m)
  {
    StepPending(s, step, 0);
    forall m | m in HandedBy(s, step) ensures Pending(s, m) {
      StepPending(s, step, m);
    }
  }

  /** From a state that keeps the invariants, the step leads from h to h'. */
  ghost predicate Leads(h: History, step: Step, h': History) {
    Inv(h.s) ==> Enabled(h.s, step) && h' == Extend(h, step)
  }

  /** hs are the histories along the steps. */
  ghost predicate IsRun(hs: seq<History>, steps: seq<Step>) {
    && |hs| == |steps| + 1 && hs[0] == START
    && forall i :: 0 <= i < |steps| ==> Leads(hs[i], steps[i], hs[i + 1])
  }

  ghost predicate Forgetful(hs: seq<History>, steps: seq<Step>, k: nat) {
    exists i :: 0 <= i < k && i < |steps| && i < |hs| && Inv(hs[i].s) && Enabled(hs[i].s, steps[i]) && Forgets(hs[i].s, steps[i])
  }

  /** In every reachable state the queues are matched, every task is in one place, and, unless
      a step on the way forgot one, no queue waits for a task its loop was not woken for. */
  lemma {:induction false} Reachable(hs: seq<History>, steps: seq<Step>, k: nat)
    requires IsRun(hs, steps) && k < |hs|
    ensures Inv(hs[k].s) && Conserved(hs[k])
    ensures !Forgetful(hs, steps, k) ==> NoLostWakeup(hs[k].s)
  {
    if k > 0 {
      Reachable(hs, steps, k - 1);
      assert Leads(hs[k - 1], steps[k - 1], hs[k]);
      NotYet(hs, steps, k);
      GoodStep(hs[k - 1], steps[k - 1]);
    }
  }

  lemma NotYet(hs: seq<History>, steps: seq<Step>, k: nat)
    requires 0 < k <= |steps| && k < |hs| && Inv(hs[k - 1].s) && Enabled(hs[k - 1].s, steps[k - 1])
    ensures !Forgetful(hs, steps, k) ==> !Forgetful(hs, steps, k - 1) && !Forgets(hs[k - 1].s, steps[k - 1])
  {
  }

  lemma GoodStep(h: History, step: Step)
    requires Inv(h.s) && Conserved(h) && Enabled(h.s, step)
    ensures Inv(Extend(h, step).s) && Conserved(Extend(h, step))
    ensures NoLostWakeup(h.s) && !Forgets(h.s, step) ==> NoLostWakeup(Extend(h, step).s)
  {
    StepConserves(h, step);
    StepInv(h.s, step);
    if NoLostWakeup(h.s) && !Forgets(h.s, step) {
      StepWakes(h.s, step);
    }
  }

  /** What GetNextTaskToRun hands out: nothing, or the one task that is due and comes before
      all other visible ones: it is due earlier, or at the same time and was registered first. */
  lemma NextIsLeast(s: State, q: int, now: int)
    requires Inv(s) && q in s.entries
    ensures var taken := Schedule.Next(s, q, now).1;
            && (taken.None? <==> forall t :: Visible(s, q, t) ==> t.time > now)
            && (taken.Some? ==> Visible(s, q, taken.value) && taken.value.time <= now
                                && forall t :: Visible(s, q, t) && t != taken.value ==> Earlier(taken.value, t))
  {
    PeekIsLeast(s, q);
  }

  predicate Earlier(a: Task, b: Task) {
    a.time < b.time || (a.time == b.time && a.order < b.order)
  }

  // ---------------------------------------------------------------- a run that forgets a task

  /** A run with these steps ends in h. */
  ghost predicate Arrives(h: History, steps: seq<Step>) {
    exists hs :: IsRun(hs, steps) && hs[|steps|] == h
  }

  /** A run goes on with any step that is enabled. */
  lemma Grow(h: History, steps: seq<Step>, step: Step) returns (h': History)
    requires Arrives(h, steps) && Inv(h.s) && Enabled(h.s, step)
    ensures Arrives(h', steps + [step]) && h'.s == Apply(h.s, step) && Inv(h'.s)
  {
    var hs :| IsRun(hs, steps) && hs[|steps|] == h;
    h' := Extend(h, step);
    StepInv(h.s, step);
    Longer(hs, steps, h', step);
  }

  lemma Longer(hs: seq<History>, steps: seq<Step>, h': History, step: Step)
    requires IsRun(hs, steps) && Leads(hs[|steps|], step, h')
    ensures IsRun(hs + [h'], steps + [step])
    ensures Arrives(h', steps + [step])
  {
    var hs', steps' := hs + [h'], steps + [step];
    forall i | 0 <= i < |steps'| ensures Leads(hs'[i], steps'[i], hs'[i + 1]) {
      if i < |steps| {
        assert hs'[i] == hs[i] && hs'[i + 1] == hs[i + 1] && steps'[i] == steps[i];
        assert Leads(hs[i], steps[i], hs[i + 1]);
      } else {
        assert hs'[i] == hs[i] && hs'[i + 1] == h' && steps'[i] == step;
      }
    }
    assert IsRun(hs', steps') && hs'[|steps'|] == h';
  }

  lemma Begin()
    ensures Arrives(START, []) && Inv(START.s)
  {
    assert IsRun([START], []);
  }

  /** Queues 0 and 1, of which the second has the given tasks. */
  function TwoQueues(ownerOf: int, subsumedBy: int, source: Source, log: seq<Posting>): State {
    State(map[0 := Entry(EMPTY, ownerOf, UNMERGED, true, None, []),
              1 := Entry(source, UNMERGED, subsumedBy, true, None, [])], 2, log)
  }

  const MICRO: Task := Task(0, 7, 5, DartMicroTasks)

  lemma LoopsSet()
    ensures var s := Schedule.Create(Schedule.Create(INITIAL));
            && 0 in s.entries && 1 in s.entries && !s.entries[0].wakeable && !s.entries[1].wakeable
            && Schedule.SetWakeable(Schedule.SetWakeable(s, 0), 1) == TwoQueues(UNMERGED, UNMERGED, EMPTY, [])
  {
    var s := Schedule.SetWakeable(Schedule.SetWakeable(Schedule.Create(Schedule.Create(INITIAL)), 0), 1);
    assert s.entries == TwoQueues(UNMERGED, UNMERGED, EMPTY, []).entries;
  }

  /** Two queues and their loops. */
  lemma TwoLoops() returns (h: History)
    ensures Arrives(h, [] + [Create] + [Create] + [SetWakeable(0)] + [SetWakeable(1)])
    ensures Inv(h.s) && h.s == TwoQueues(UNMERGED, UNMERGED, EMPTY, [])
  {
    LoopsSet();
    Begin();
    h := Grow(START, [], Create);
    h := Grow(h, [] + [Create], Create);
    h := Grow(h, [] + [Create] + [Create], SetWakeable(0));
    h := Grow(h, [] + [Create] + [Create] + [SetWakeable(0)], SetWakeable(1));
  }

  lemma PausedMicro()
    ensures Schedule.Pause(TwoQueues(UNMERGED, UNMERGED, EMPTY, []), 1) == TwoQueues(UNMERGED, UNMERGED, Source([], [], 1), [])
  {
    assert Schedule.Pause(TwoQueues(UNMERGED, UNMERGED, EMPTY, []), 1).entries
        == TwoQueues(UNMERGED, UNMERGED, Source([], [], 1), []).entries;
  }

  lemma PostedMicro()
    ensures var s := TwoQueues(UNMERGED, UNMERGED, Source([], [], 1), []);
            Matched(s) && Schedule.Register(s, 1, 7, 5, DartMicroTasks)
                          == TwoQueues(UNMERGED, UNMERGED, Source([], [MICRO], 1), [Posting(1, MICRO)])
  {
    assert Insert([], MICRO) == [MICRO];
  }

  lemma MergedMicro()
    ensures var s := TwoQueues(UNMERGED, UNMERGED, Source([], [MICRO], 1), [Posting(1, MICRO)]);
            Matched(s) && Schedule.Merge(s, 0, 1) == (TwoQueues(1, 0, Source([], [MICRO], 1), [Posting(1, MICRO)]), true)
  {
    var s := TwoQueues(UNMERGED, UNMERGED, Source([], [MICRO], 1), [Posting(1, MICRO)]);
    assert Link(s, 0, 1).entries == TwoQueues(1, 0, Source([], [MICRO], 1), [Posting(1, MICRO)]).entries;
  }

  lemma ResumedMicro()
    ensures var s := TwoQueues(1, 0, Source([], [MICRO], 1), [Posting(1, MICRO)]);
            Matched(s) && Unannounced(s, 1) && Enabled(s, Resume(1)) && (Inv(s) ==> NoLostWakeup(s))
  {
    assert MICRO in [MICRO];
  }

  /** It happens: a queue whose secondary task is paused is merged, and then resumed.  The run
      reaches a state in which the owner has the task to run and its loop was never woken. */
  lemma ResumeForgets() returns (hs: seq<History>, steps: seq<Step>)
    ensures IsRun(hs, steps) && |steps| == 8 && steps[7] == Resume(1)
    ensures Forgetful(hs, steps, 8) && Inv(hs[8].s) && !NoLostWakeup(hs[8].s)
  {
    var h := BeforeResume();
    var before := MicroSteps();
    ResumedMicro();
    StepWakes(h.s, Resume(1));
    h := Grow(h, before, Resume(1));
    steps := before + [Resume(1)];
    hs :| IsRun(hs, steps) && hs[|steps|] == h;
    Reachable(hs, steps, 8);
  }

  function MicroSteps(): (steps: seq<Step>)
    ensures |steps| == 7
  {
    [] + [Create] + [Create] + [SetWakeable(0)] + [SetWakeable(1)]
    + [Pause(1)] + [Register(1, 7, 5, DartMicroTasks)] + [Merge(0, 1)]
  }

  lemma BeforeResume() returns (h: History)
    ensures Arrives(h, MicroSteps())
    ensures Inv(h.s) && h.s == TwoQueues(1, 0, Source([], [MICRO], 1), [Posting(1, MICRO)])
  {
    h := TwoLoops();
    var steps := [] + [Create] + [Create] + [SetWakeable(0)] + [SetWakeable(1)];
    PausedMicro();
    h := Grow(h, steps, Pause(1));
    PostedMicro();
    h := Grow(h, steps + [Pause(1)], Register(1, 7, 5, DartMicroTasks));
    MergedMicro();
    h := Grow(h, steps + [Pause(1)] + [Register(1, 7, 5, DartMicroTasks)], Merge(0, 1));
  }
}
