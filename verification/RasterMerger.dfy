/** base/raster_thread_merger.cc: a lease on the merging of two queues.  The sections under the
    lease lock are the steps; DecrementLease has two of them, because it unlocks before it calls
    UnMergeNow. */
module RasterMerger {
  import opened Machine
  import opened Tasks
  import opened Schedule
  import ScheduleRuns
  import TaskQueues

  const LEASE_NOT_SET: int := -1

  datatype Status = RemainsMerged | RemainsUnmerged | UnmergedNow

  /** windows counts the threads that have ended the lease and are about to call UnMergeNow.
      Aborted is where a failed FML_CHECK ends. */
  datatype System = System(s: State, lease: int, enabled: bool, windows: nat) | Aborted

  /** Both queues exist, and merge with each other only. */
  ghost predicate Pair(s: State, p: int, g: int) {
    && Inv(s) && p in s.entries && g in s.entries
    && s.entries[p].subsumedBy == UNMERGED && s.entries[g].ownerOf == UNMERGED
    && (s.entries[p].ownerOf == UNMERGED || s.entries[p].ownerOf == g)
    && (s.entries[g].subsumedBy == UNMERGED || s.entries[g].subsumedBy == p)
  }

  predicate Owned(s: State, p: int, g: int)
    requires p in s.entries
  {
    s.entries[p].ownerOf == g
  }

  ghost predicate Ready(y: System, p: int, g: int) {
    y.System? && Pair(y.s, p, g)
  }

  // ---------------------------------------------------------------- the sections under the lock

  function MergeSection(y: System, p: int, g: int, n: nat): System
    requires Ready(y, p, g)
  {
    if p == g || !y.enabled || y.lease > 0 then y
    else
      var (s, success) := Merge(y.s, p, g);
      if success then y.(s := s, lease := Wrap32(n)) else Aborted
  }

  function UnmergeSection(y: System, p: int, g: int): System
    requires Ready(y, p, g)
  {
    if p == g || !y.enabled then y
    else
      var (s, success) := Unmerge(y.s, p);
      if success then y.(s := s, lease := 0) else Aborted
  }

  /** The caller holds a lease: the source checks that only in debug builds. */
  function ExtendSection(y: System, p: int, g: int, n: nat): System
    requires y.System? && (p != g ==> y.lease > 0)
  {
    if p != g && y.lease != LEASE_NOT_SET && Wrap32(n) > y.lease then y.(lease := Wrap32(n)) else y
  }

  /** The first section of DecrementLease.  When the lease is over, UnMergeNow is still to be
      called, and the status is for later. */
  function DecrementSection(y: System, p: int, g: int): (System, Status)
    requires y.System?
  {
    if p == g then (y, RemainsMerged)
    else if y.lease <= 0 then (y, RemainsUnmerged)
    else if !y.enabled then (y, RemainsMerged)
    else if y.lease == 1 then (y.(lease := 0, windows := y.windows + 1), UnmergedNow)
    else (y.(lease := y.lease - 1), RemainsMerged)
  }

  /** The second section. */
  function FinishSection(y: System, p: int, g: int): System
    requires Ready(y, p, g) && y.windows > 0
  {
    UnmergeSection(y.(windows := y.windows - 1), p, g)
  }

  // ---------------------------------------------------------------- all interleavings

  datatype Step =
    | Merging(n: nat)
    | Unmerging
    | Extending(n: nat)
    | Decrementing
    | Finishing
    | Enabling
    | Disabling
    | Elsewhere(step: ScheduleRuns.Step)

  /** The other users of the scheduler leave the merging of the two queues to the merger. */
  predicate LeavesPair(s: State, step: ScheduleRuns.Step, p: int, g: int) {
    match step
    case Merge(o, m) => o == m || (o != p && o != g && m != p && m != g)
    case Unmerge(o) => o != p && o != g
    case Dispose(q) => q != p && q != g
    case _ => true
  }

  predicate Enabled(y: System, step: Step, p: int, g: int)
    requires y.System?
  {
    match step
    case Merging(n) => n > 0
    case Extending(_) => p != g ==> y.lease > 0
    case Finishing => y.windows > 0
    case Elsewhere(step) => ScheduleRuns.Enabled(y.s, step) && LeavesPair(y.s, step, p, g)
    case _ => true
  }

  function Apply(y: System, step: Step, p: int, g: int): System
    requires Ready(y, p, g) && Enabled(y, step, p, g)
  {
    match step
    case Merging(n) => MergeSection(y, p, g, n)
    case Unmerging => UnmergeSection(y, p, g)
    case Extending(n) => ExtendSection(y, p, g, n)
    case Decrementing => DecrementSection(y, p, g).0
    case Finishing => FinishSection(y, p, g)
    case Enabling => y.(enabled := true)
    case Disabling => y.(enabled := false)
    case Elsewhere(step) => y.(s := ScheduleRuns.Apply(y.s, step))
  }

  /** A positive lease means that the platform queue owns the gpu queue. */
  ghost predicate Leased(y: System, p: int, g: int) {
    y.System? ==> Pair(y.s, p, g) && (y.lease > 0 ==> Owned(y.s, p, g))
  }

  /** The platform queue owns the gpu queue, but there is no lease, nor anyone to unmerge them. */
  predicate Stuck(y: System, p: int, g: int)
    requires y.System? && p in y.s.entries
  {
    Owned(y.s, p, g) && y.lease <= 0 && y.windows == 0
  }

  // ---------------------------------------------------------------- the pair of queues

  lemma MergePair(s: State, p: int, g: int)
    requires Pair(s, p, g) && p != g
    ensures Merge(s, p, g).1 && Pair(Merge(s, p, g).0, p, g) && Owned(Merge(s, p, g).0, p, g)
  {
    ScheduleRuns.MergeInv(s, p, g);
    if s.entries[p].ownerOf != g {
      assert s.entries[g].subsumedBy == UNMERGED;
      ScheduleRuns.WakeOnly(Link(s, p, g), p);
    }
  }

  lemma UnmergePair(s: State, p: int, g: int)
    requires Pair(s, p, g) && p != g
    ensures Unmerge(s, p).1 <==> Owned(s, p, g)
    ensures Pair(Unmerge(s, p).0, p, g) && !Owned(Unmerge(s, p).0, p, g)
  {
    ScheduleRuns.UnmergeInv(s, p);
    if Owned(s, p, g) {
      var s1 := Unlink(s, p, g);
      ScheduleRuns.UnlinkInv(s, p);
      ScheduleRuns.WakeOnly(s1, p);
      ScheduleRuns.WakeInv(s1, p);
      ScheduleRuns.WakeOnly(WakeForNext(s1, p), g);
    }
  }

  predicate LinksKept(s: State, s': State, x: int)
    requires x in s.entries
  {
    x in s'.entries && s'.entries[x].ownerOf == s.entries[x].ownerOf && s'.entries[x].subsumedBy == s.entries[x].subsumedBy
  }

  /** A step elsewhere leaves the links of a queue of the pair alone. */
  lemma SameLinks(s: State, step: ScheduleRuns.Step, p: int, g: int, x: int)
    requires Pair(s, p, g) && ScheduleRuns.Enabled(s, step) && LeavesPair(s, step, p, g) && (x == p || x == g)
    ensures LinksKept(s, ScheduleRuns.Apply(s, step), x)
  {
    match step
    case Merge(o, m) => MergeElsewhere(s, o, m, x);
    case Unmerge(o) => UnmergeElsewhere(s, o, x);
    case Dispose(q) => DisposeElsewhere(s, q, p, g, x);
    case Next(q, now) => NextElsewhere(s, q, now, x);
    case Create =>
    case SetWakeable(q) =>
    case Register(q, closure, time, grade) => RegisterElsewhere(s, q, closure, time, grade, x);
    case Pause(q) =>
    case Resume(q) => ResumeElsewhere(s, q, x);
    case DisposeTasks(q) =>
  }

  lemma RegisterElsewhere(s: State, q: int, closure: int, time: int, grade: Grade, x: int)
    requires Inv(s) && q in s.entries && x in s.entries
    ensures LinksKept(s, Register(s, q, closure, time, grade), x)
  {
  }

  lemma ResumeElsewhere(s: State, q: int, x: int)
    requires Inv(s) && q in s.entries && x in s.entries
    ensures LinksKept(s, Resume(s, q), x)
  {
  }

  lemma DisposeElsewhere(s: State, q: int, p: int, g: int, x: int)
    requires Pair(s, p, g) && q in s.entries && q != p && q != g && (x == p || x == g)
    ensures LinksKept(s, Dispose(s, q), x)
  {
  }

  lemma NextElsewhere(s: State, q: int, now: int, x: int)
    requires Inv(s) && q in s.entries && x in s.entries
    ensures LinksKept(s, Next(s, q, now).0, x)
  {
  }

  lemma MergeElsewhere(s: State, o: int, m: int, x: int)
    requires Inv(s) && x in s.entries && (o != m ==> o in s.entries && m in s.entries && x != o && x != m)
    ensures LinksKept(s, Merge(s, o, m).0, x)
  {
    if Merge(s, o, m).0 != s {
      ScheduleRuns.WakeOnly(Link(s, o, m), o);
    }
  }

  lemma UnmergeElsewhere(s: State, o: int, x: int)
    requires Inv(s) && x in s.entries && o in s.entries && x != o && s.entries[o].ownerOf != x
    ensures LinksKept(s, Unmerge(s, o).0, x)
  {
    var m := s.entries[o].ownerOf;
    if m != UNMERGED {
      var s1 := Unlink(s, o, m);
      ScheduleRuns.WakeOnly(s1, o);
      ScheduleRuns.WakeOnly(WakeForNext(s1, o), m);
    }
  }

  lemma ElsewherePair(s: State, step: ScheduleRuns.Step, p: int, g: int)
    requires Pair(s, p, g) && ScheduleRuns.Enabled(s, step) && LeavesPair(s, step, p, g)
    ensures var s' := ScheduleRuns.Apply(s, step); Pair(s', p, g) && (Owned(s', p, g) <==> Owned(s, p, g))
  {
    ScheduleRuns.StepInv(s, step);
    SameLinks(s, step, p, g, p);
    SameLinks(s, step, p, g, g);
  }

  // ---------------------------------------------------------------- what the steps keep

  /** A check fails exactly when the queues are to be unmerged and are not merged. */
  predicate Aborts(y: System, step: Step, p: int, g: int)
    requires y.System? && p in y.s.entries
  {
    (step.Unmerging? || step.Finishing?) && y.enabled && !Owned(y.s, p, g)
  }

  /** Unless a check fails, a positive lease goes on to mean that the platform queue owns the
      gpu queue. */
  lemma StepLeased(y: System, step: Step, p: int, g: int)
    requires p != g && y.System? && Leased(y, p, g) && Enabled(y, step, p, g)
    ensures Leased(Apply(y, step, p, g), p, g)
    ensures Apply(y, step, p, g) == Aborted <==> Aborts(y, step, p, g)
  {
    match step
    case Merging(n) => MergePair(y.s, p, g);
    case Unmerging => UnmergePair(y.s, p, g);
    case Extending(n) =>
    case Decrementing =>
    case Finishing => UnmergePair(y.s, p, g);
    case Enabling =>
    case Disabling =>
    case Elsewhere(step) => ElsewherePair(y.s, step, p, g);
  }

  /** The steps that leave the queues merged with nobody to unmerge them: the last pending
      UnMergeNow finds the merger disabled, or a lease of 2^31 or more is cut to an int that is
      not positive. */
  predicate Sticks(y: System, step: Step, p: int, g: int)
    requires y.System? && p in y.s.entries
  {
    match step
    case Finishing => Owned(y.s, p, g) && y.lease <= 0 && y.windows == 1 && !y.enabled
    case Merging(n) => y.enabled && y.lease <= 0 && y.windows == 0 && Wrap32(n) <= 0
    case _ => false
  }

  /** Merged queues have a lease, or a pending UnMergeNow, and exactly those steps end that. */
  lemma StepSticks(y: System, step: Step, p: int, g: int)
    requires p != g && y.System? && Leased(y, p, g) && Enabled(y, step, p, g) && !Stuck(y, p, g)
    requires !Aborts(y, step, p, g)
    ensures Apply(y, step, p, g).System? && p in Apply(y, step, p, g).s.entries
    ensures Stuck(Apply(y, step, p, g), p, g) <==> Sticks(y, step, p, g)
  {
    StepLeased(y, step, p, g);
    match step
    case Merging(n) => MergePair(y.s, p, g);
    case Unmerging => UnmergePair(y.s, p, g);
    case Extending(n) =>
    case Decrementing =>
    case Finishing => UnmergePair(y.s, p, g);
    case Enabling =>
    case Disabling =>
    case Elsewhere(step) => ElsewherePair(y.s, step, p, g);
  }

  /** The merger is made for two queues that are not merged. */
  predicate Fresh(y: System, p: int, g: int) {
    y.System? && p in y.s.entries && !Owned(y.s, p, g) && y.lease == LEASE_NOT_SET && y.enabled && y.windows == 0
  }

  /** ys are the states along the steps; after an abort there are none. */
  ghost predicate IsRun(ys: seq<System>, steps: seq<Step>, p: int, g: int) {
    && |ys| == |steps| + 1 && Fresh(ys[0], p, g) && Pair(ys[0].s, p, g)
    && forall i :: 0 <= i < |steps| && Ready(ys[i], p, g) ==>
         Enabled(ys[i], steps[i], p, g) && ys[i + 1] == Apply(ys[i], steps[i], p, g)
  }

  ghost predicate Sticky(ys: seq<System>, steps: seq<Step>, p: int, g: int, k: nat) {
    exists i :: 0 <= i < k && i < |steps| && i < |ys| && Ready(ys[i], p, g) && Sticks(ys[i], steps[i], p, g)
  }

  /** In every run, as long as no check fails: a positive lease means merged; and merged means a
      positive lease or a pending UnMergeNow, unless one of those steps came before. */
  lemma {:induction false} Reachable(ys: seq<System>, steps: seq<Step>, p: int, g: int, k: nat)
    requires p != g && IsRun(ys, steps, p, g) && k < |ys| && forall i :: 0 <= i <= k ==> ys[i].System?
    ensures Leased(ys[k], p, g)
    ensures !Sticky(ys, steps, p, g, k) ==> !Stuck(ys[k], p, g)
  {
    if k > 0 {
      Reachable(ys, steps, p, g, k - 1);
      NotYet(ys, steps, p, g, k);
      NextLeased(ys[k - 1], steps[k - 1], p, g, ys[k]);
    }
  }

  lemma NextLeased(y: System, step: Step, p: int, g: int, next: System)
    requires p != g && y.System? && Leased(y, p, g) && Enabled(y, step, p, g)
    requires next == Apply(y, step, p, g) && next.System?
    ensures Leased(next, p, g) && (!Stuck(y, p, g) && !Sticks(y, step, p, g) ==> !Stuck(next, p, g))
  {
    StepLeased(y, step, p, g);
    if !Stuck(y, p, g) {
      StepSticks(y, step, p, g);
    }
  }

  lemma NotYet(ys: seq<System>, steps: seq<Step>, p: int, g: int, k: nat)
    requires 0 < k <= |steps| && k < |ys| && Ready(ys[k - 1], p, g)
    ensures !Sticky(ys, steps, p, g, k) ==> !Sticky(ys, steps, p, g, k - 1) && !Sticks(ys[k - 1], steps[k - 1], p, g)
  {
  }

  // ---------------------------------------------------------------- one thread

  /** DecrementLease, with nothing in between its two sections. */
  function DecrementAlone(y: System, p: int, g: int): (System, Status)
    requires Ready(y, p, g)
  {
    var (y1, status) := DecrementSection(y, p, g);
    if status == UnmergedNow then (FinishSection(y1, p, g), status) else (y1, status)
  }

  lemma OneDecrement(y: System, p: int, g: int)
    requires p != g && y.System? && Leased(y, p, g) && y.enabled && y.lease > 0
    ensures var (y', status) := DecrementAlone(y, p, g);
            && y'.System? && Leased(y', p, g) && y'.enabled && y'.windows == y.windows && y'.lease == y.lease - 1
            && (Owned(y'.s, p, g) <==> y.lease > 1)
            && status == if y.lease > 1 then RemainsMerged else UnmergedNow
  {
    UnmergePair(y.s, p, g);
  }

  /** What one decrement returns and does, in every state. */
  lemma DecrementExact(y: System, p: int, g: int)
    requires Ready(y, p, g)
    ensures var (y', status) := DecrementAlone(y, p, g);
            && (status == RemainsUnmerged <==> p != g && y.lease <= 0)
            && (status == UnmergedNow <==> p != g && y.enabled && y.lease == 1)
            && (p == g || !y.enabled || y.lease <= 0 ==> y' == y)
            && (p != g && y.enabled && y.lease > 1 ==> y' == System(y.s, y.lease - 1, true, y.windows))
            && (status == UnmergedNow && Owned(y.s, p, g) ==>
                  y'.System? && !Owned(y'.s, p, g) && y'.lease == 0 && y'.enabled && y'.windows == y.windows)
            && (status == UnmergedNow && !Owned(y.s, p, g) ==> y' == Aborted)
  {
    if p != g {
      UnmergePair(y.s, p, g);
    }
  }

  /** What the other sections do, in every state.  With one queue for both threads, or disabled,
      they do nothing, but that a lease can be extended while the merger is disabled. */
  lemma MergeExact(y: System, p: int, g: int, n: nat)
    requires Ready(y, p, g)
    ensures var y' := MergeSection(y, p, g, n);
            if p == g || !y.enabled || y.lease > 0 then y' == y
            else y'.System? && Owned(y'.s, p, g) && y'.lease == Wrap32(n) && y'.enabled && y'.windows == y.windows
  {
    if p != g {
      MergePair(y.s, p, g);
    }
  }

  lemma UnmergeExact(y: System, p: int, g: int)
    requires Ready(y, p, g)
    ensures var y' := UnmergeSection(y, p, g);
            if p == g || !y.enabled then y' == y
            else if Owned(y.s, p, g)
            then y'.System? && !Owned(y'.s, p, g) && y'.lease == 0 && y'.enabled && y'.windows == y.windows
            else y' == Aborted
  {
    if p != g {
      UnmergePair(y.s, p, g);
    }
  }

  lemma ExtendExact(y: System, p: int, g: int, n: nat)
    requires y.System? && (p != g ==> y.lease > 0)
    ensures ExtendSection(y, p, g, n)
         == if p == g then y else System(y.s, Max(y.lease, Wrap32(n)), y.enabled, y.windows)
  {
  }

  /** A fresh lease of n survives n - 1 decrements; the n-th ends it. */
  lemma {:induction false} LeaseLife(y: System, ys: seq<System>, p: int, g: int, n: nat, k: nat)
    requires p != g && y.System? && Leased(y, p, g) && y.enabled && y.lease <= 0 && 0 < n < TWO31
    requires |ys| == n + 1 && ys[0] == MergeSection(y, p, g, n) && k <= n
    requires forall i :: 0 <= i < n && Ready(ys[i], p, g) ==> ys[i + 1] == DecrementAlone(ys[i], p, g).0
    ensures ys[k].System? && Leased(ys[k], p, g) && ys[k].enabled && ys[k].lease == n - k
    ensures Owned(ys[k].s, p, g) <==> k < n
    ensures k < n ==> DecrementAlone(ys[k], p, g).1 == if k < n - 1 then RemainsMerged else UnmergedNow
  {
    if k == 0 {
      MergePair(y.s, p, g);
    } else {
      LeaseLife(y, ys, p, g, n, k - 1);
      OneDecrement(ys[k - 1], p, g);
    }
    if k < n {
      OneDecrement(ys[k], p, g);
    }
  }

  /** Extending takes the longer of the two leases exactly when the new one fits an int. */
  lemma ExtendIsMax(y: System, p: int, g: int, n: nat)
    requires p != g && y.System? && 0 < y.lease < TWO31
    ensures ExtendSection(y, p, g, n) == y.(lease := Max(y.lease, n)) <==> n < TWO31
  {
  }

  /** A first lease beyond that is worse: the queues are merged, and count as unmerged. */
  lemma LongLease(y: System, p: int, g: int)
    requires p != g && y.System? && Leased(y, p, g) && y.enabled && y.lease <= 0
    ensures var y' := MergeSection(y, p, g, 0x8000_0000);
            y'.System? && Owned(y'.s, p, g) && y'.lease == -TWO31 && DecrementSection(y', p, g) == (y', RemainsUnmerged)
  {
    MergePair(y.s, p, g);
  }

  // ---------------------------------------------------------------- the object

  lemma MergeIs(y: System, p: int, g: int, n: nat)
    requires Ready(y, p, g) && p != g && y.enabled && y.lease <= 0
    ensures var (s, success) := Merge(y.s, p, g);
            MergeSection(y, p, g, n) == if success then System(s, Wrap32(n), true, y.windows) else Aborted
  {
  }

  lemma UnmergeIs(y: System, p: int, g: int)
    requires Ready(y, p, g) && p != g && y.enabled
    ensures var (s, success) := Unmerge(y.s, p);
            UnmergeSection(y, p, g) == if success then System(s, 0, true, y.windows) else Aborted
  {
  }

  /** checked says that no FML_CHECK failed; the process does not outlive one that does. */
  class RasterThreadMerger {
    const platform: int
    const gpu: int
    const queues: TaskQueues.MessageLoopTaskQueues
    var lease: int
    var enabled: bool

    ghost predicate Valid()
      reads this, queues, queues.Objects()
    {
      queues.Valid() && Pair(queues.State(), platform, gpu) && this !in queues.Objects()
    }

    ghost function Value(windows: nat): (y: System)
      reads this, queues, queues.Objects()
      ensures y.System?
    {
      System(queues.State(), lease, enabled, windows)
    }

    /** A new merger checks that the queues are not merged yet. */
    constructor (queues: TaskQueues.MessageLoopTaskQueues, platform: int, gpu: int)
      requires queues.Valid() && Pair(queues.State(), platform, gpu) && !Owned(queues.State(), platform, gpu)
      ensures this.queues == queues && this.platform == platform && this.gpu == gpu
      ensures Valid() && Fresh(Value(0), platform, gpu)
    {
      this.queues, this.platform, this.gpu := queues, platform, gpu;
      lease, enabled := LEASE_NOT_SET, true;
      new;
      assert queues.Valid() && queues.State() == old(queues.State());
    }

    method TaskQueuesAreSame() returns (same: bool)
      ensures same <==> platform == gpu
    {
      same := platform == gpu;
    }

    method IsMerged() returns (merged: bool)
      ensures merged <==> lease > 0 || platform == gpu
    {
      merged := lease > 0 || platform == gpu;
    }

    method MergeWithLease(n: nat) returns (checked: bool)
      requires Valid() && (platform != gpu && enabled ==> n > 0)
      modifies this, queues.Objects()
      ensures queues.Valid() && queues.entries == old(queues.entries)
      ensures checked <==> MergeSection(old(Value(0)), platform, gpu, n).System?
      ensures checked ==> Value(0) == MergeSection(old(Value(0)), platform, gpu, n)
    {
      var same := TaskQueuesAreSame();
      if same || !enabled {
        return true;
      }
      var merged := IsMerged();
      if merged {
        return true;
      }
      ghost var y := Value(0);
      MergeIs(y, platform, gpu, n);
      checked := MergeUnmerged(n);
    }

    method MergeUnmerged(n: nat) returns (checked: bool)
      requires Valid() && platform != gpu && enabled && lease <= 0
      modifies this, queues.Objects()
      ensures queues.Valid() && queues.entries == old(queues.entries)
      ensures var (s, success) := Merge(old(queues.State()), platform, gpu);
              checked == success && (checked ==> Value(0) == System(s, Wrap32(n), true, 0))
    {
      checked := MergeQueues();
      if checked {
        SetLease(Wrap32(n));
      }
    }

    method UnMergeNow() returns (checked: bool)
      requires Valid()
      modifies this, queues.Objects()
      ensures queues.Valid() && queues.entries == old(queues.entries)
      ensures checked <==> UnmergeSection(old(Value(0)), platform, gpu).System?
      ensures checked ==> Value(0) == UnmergeSection(old(Value(0)), platform, gpu)
    {
      var same := TaskQueuesAreSame();
      if same || !enabled {
        return true;
      }
      ghost var y := Value(0);
      UnmergeIs(y, platform, gpu);
      checked := UnmergeHeld();
    }

    method UnmergeHeld() returns (checked: bool)
      requires Valid() && platform != gpu && enabled
      modifies this, queues.Objects()
      ensures queues.Valid() && queues.entries == old(queues.entries)
      ensures var (s, success) := Unmerge(old(queues.State()), platform);
              checked == success && Value(0) == System(s, 0, true, 0)
    {
      SetLease(0);
      checked := UnmergeQueues();
    }

    method SetLease(x: int)
      requires queues.Valid() && this !in queues.Objects()
      modifies this
      ensures queues.Valid() && Value(0) == System(old(queues.State()), x, old(enabled), 0)
      ensures lease == x && enabled == old(enabled) && queues.State() == old(queues.State()) && Valid() == old(Valid())
    {
      lease := x;
    }

    method MergeQueues() returns (merged: bool)
      requires Valid() && platform != gpu
      modifies queues.Objects()
      ensures queues.Valid() && queues.entries == old(queues.entries)
      ensures lease == old(lease) && enabled == old(enabled)
      ensures (queues.State(), merged) == Merge(old(queues.State()), platform, gpu)
    {
      merged := queues.Merge(platform, gpu);
    }

    method UnmergeQueues() returns (unmerged: bool)
      requires Valid()
      modifies queues.Objects()
      ensures queues.Valid() && queues.entries == old(queues.entries)
      ensures lease == old(lease) && enabled == old(enabled)
      ensures (queues.State(), unmerged) == Unmerge(old(queues.State()), platform)
    {
      unmerged := queues.Unmerge(platform);
    }

    method ExtendLeaseTo(n: nat)
      requires Valid() && (platform != gpu ==> lease > 0)
      modifies this
      ensures Valid() && Value(0) == ExtendSection(old(Value(0)), platform, gpu, n)
    {
      var same := TaskQueuesAreSame();
      if same {
        return;
      }
      if lease != LEASE_NOT_SET && Wrap32(n) > lease {
        lease := Wrap32(n);
      }
    }

    /** The section before the lock is given up. */
    method DecrementLocked() returns (status: Status)
      requires Valid()
      modifies this
      ensures Valid()
      ensures var windows := if status == UnmergedNow then 1 else 0;
              (Value(windows), status) == DecrementSection(old(Value(0)), platform, gpu)
    {
      var same := TaskQueuesAreSame();
      if same {
        return RemainsMerged;
      }
      var merged := IsMerged();
      if !merged {
        return RemainsUnmerged;
      }
      if !enabled {
        return RemainsMerged;
      }
      status := Spend();
    }

    method Spend() returns (status: Status)
      requires Valid() && platform != gpu && lease > 0 && enabled
      modifies this
      ensures Valid() == old(Valid())
      ensures var windows := if status == UnmergedNow then 1 else 0;
              (Value(windows), status) == DecrementSection(old(Value(0)), platform, gpu)
    {
      SetLease(lease - 1);
      status := if lease == 0 then UnmergedNow else RemainsMerged;
    }

    /** With no other thread in between. */
    method DecrementLease() returns (status: Status, checked: bool)
      requires Valid()
      modifies this, queues.Objects()
      ensures queues.Valid() && queues.entries == old(queues.entries)
      ensures var (y, s) := DecrementAlone(old(Value(0)), platform, gpu);
              status == s && (checked <==> y.System?) && (checked ==> Value(0) == y)
    {
      status := DecrementLocked();
      checked := true;
      if status == UnmergedNow {
        checked := UnMergeNow();
      }
    }

    method Enable()
      requires Valid()
      modifies this
      ensures Valid() && Value(0) == System(old(queues.State()), old(lease), true, 0)
    {
      enabled := true;
    }

    method Disable()
      requires Valid()
      modifies this
      ensures Valid() && Value(0) == System(old(queues.State()), old(lease), false, 0)
    {
      enabled := false;
    }
  }
}
