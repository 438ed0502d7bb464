/** What merging, unmerging, pausing and resuming do to the tasks that the queues see. */
module ScheduleViews {
  import opened Tasks
  import opened Schedule
  import ScheduleRuns

  /** The two queues have no links, so that merging them succeeds. */
  predicate Mergeable(s: State, owner: int, subsumed: int) {
    && owner in s.entries && subsumed in s.entries && owner != subsumed
    && s.entries[owner].ownerOf == UNMERGED && s.entries[owner].subsumedBy == UNMERGED
    && s.entries[subsumed].ownerOf == UNMERGED && s.entries[subsumed].subsumedBy == UNMERGED
  }

  /** Merging succeeds for queues without links, and without effect for queues merged this way
      already and for a queue with itself; otherwise it is refused without effect. */
  lemma MergeSucceeds(s: State, owner: int, subsumed: int)
    requires Matched(s) && owner in s.entries && subsumed in s.entries
    ensures Merge(s, owner, subsumed).1 <==>
              owner == subsumed || Mergeable(s, owner, subsumed) || s.entries[owner].ownerOf == subsumed
    ensures !Mergeable(s, owner, subsumed) ==> Merge(s, owner, subsumed).0 == s
  {
  }

  /** After a merge the owner sees what both queues saw, and the subsumed queue nothing. */
  lemma MergeShows(s: State, owner: int, subsumed: int, r: int, t: Task)
    requires Inv(s) && Mergeable(s, owner, subsumed) && r in s.entries
    ensures var s' := Merge(s, owner, subsumed).0;
            && Live(s', r)
            && (Visible(s', r, t) <==>
                  if r == owner then Visible(s, owner, t) || Visible(s, subsumed, t)
                  else r != subsumed && Visible(s, r, t))
  {
    ScheduleRuns.LinkInv(s, owner, subsumed);
    LinkShows(s, owner, subsumed, r, t);
    WakeShows(Link(s, owner, subsumed), owner, r, t);
  }

  lemma LinkShows(s: State, owner: int, subsumed: int, r: int, t: Task)
    requires Inv(s) && Mergeable(s, owner, subsumed) && r in s.entries && Inv(Link(s, owner, subsumed))
    ensures Visible(Link(s, owner, subsumed), r, t) <==>
              if r == owner then Visible(s, owner, t) || Visible(s, subsumed, t)
              else r != subsumed && Visible(s, r, t)
  {
  }

  lemma WakeShows(s: State, q: int, r: int, t: Task)
    requires Live(s, q) && Live(s, r)
    ensures Live(WakeForNext(s, q), r) && (Visible(WakeForNext(s, q), r, t) <==> Visible(s, r, t))
  {
    ScheduleRuns.WakeOnly(s, q);
  }

  /** Unmerging undoes a merge: every queue sees its own tasks again. */
  lemma UnmergeUndoesMerge(s: State, owner: int, subsumed: int, r: int, t: Task)
    requires Inv(s) && Mergeable(s, owner, subsumed) && r in s.entries
    ensures var s' := Merge(s, owner, subsumed).0;
            && Matched(s') && owner in s'.entries
            && var (s'', undone) := Unmerge(s', owner);
               undone && Live(s'', r) && (Visible(s'', r, t) <==> Visible(s, r, t))
  {
    Merged(s, owner, subsumed);
    var s' := Merge(s, owner, subsumed).0;
    LinkedAgain(s, s', owner, subsumed);
    UnmergeShows(s', owner, r, t);
    SameShows(s, Unlink(s', owner, subsumed), r, t);
  }

  /** The states differ at most in the wakeables. */
  ghost predicate SameTasks(s: State, u: State) {
    && u.entries.Keys == s.entries.Keys
    && forall q :: q in s.entries ==>
         && u.entries[q].source == s.entries[q].source
         && u.entries[q].ownerOf == s.entries[q].ownerOf && u.entries[q].subsumedBy == s.entries[q].subsumedBy
  }

  /** Unlinking restores the links. */
  lemma LinkedAgain(s: State, s': State, owner: int, subsumed: int)
    requires Mergeable(s, owner, subsumed) && ScheduleRuns.OnlyWakes(Link(s, owner, subsumed), s')
    ensures s'.entries[owner].ownerOf == subsumed && SameTasks(s, Unlink(s', owner, subsumed))
  {
  }

  lemma Merged(s: State, owner: int, subsumed: int)
    requires Inv(s) && Mergeable(s, owner, subsumed)
    ensures var s' := Merge(s, owner, subsumed).0;
            Inv(s') && ScheduleRuns.OnlyWakes(Link(s, owner, subsumed), s')
  {
    ScheduleRuns.LinkInv(s, owner, subsumed);
    ScheduleRuns.WakeInv(Link(s, owner, subsumed), owner);
    ScheduleRuns.WakeOnly(Link(s, owner, subsumed), owner);
  }

  /** Until it is unmerged, a merged pair merges again with the same roles only, which changes
      nothing; every other merge of either queue is refused, and changes nothing. */
  lemma MergeExcludes(s: State, owner: int, subsumed: int, a: int, b: int)
    requires Inv(s) && Mergeable(s, owner, subsumed) && a in s.entries && b in s.entries && a != b
    requires a == owner || a == subsumed || b == owner || b == subsumed
    ensures var s' := Merge(s, owner, subsumed).0;
            Matched(s') && Merge(s', a, b) == (s', a == owner && b == subsumed)
  {
    Merged(s, owner, subsumed);
    var s' := Merge(s, owner, subsumed).0;
    PairHeld(s, s', owner, subsumed);
    MergeSucceeds(s', a, b);
  }

  lemma PairHeld(s: State, s': State, owner: int, subsumed: int)
    requires Mergeable(s, owner, subsumed) && ScheduleRuns.OnlyWakes(Link(s, owner, subsumed), s')
    ensures s'.entries[owner].ownerOf == subsumed && s'.entries[subsumed].subsumedBy == owner
  {
  }

  /** After unmerging, the queues see what their links give them. */
  lemma UnmergeShows(s: State, owner: int, r: int, t: Task)
    requires Inv(s) && owner in s.entries && r in s.entries && s.entries[owner].ownerOf != UNMERGED
    ensures var u := Unlink(s, owner, s.entries[owner].ownerOf);
            && Unmerge(s, owner).1 && Live(u, r) && Live(Unmerge(s, owner).0, r)
            && (Visible(Unmerge(s, owner).0, r, t) <==> Visible(u, r, t))
  {
    var subsumed := s.entries[owner].ownerOf;
    var u := Unlink(s, owner, subsumed);
    ScheduleRuns.UnlinkMatched(s, owner);
    WakeShows(u, owner, r, t);
    WakeShows(u, owner, subsumed, t);
    WakeShows(WakeForNext(u, owner), subsumed, r, t);
  }

  /** Unmerging succeeds for a queue that owns another, and then each of the two sees its own
      tasks only, and nothing else changes; otherwise it is refused without effect. */
  lemma UnmergeSeparates(s: State, owner: int, r: int, t: Task)
    requires Inv(s) && owner in s.entries && r in s.entries
    ensures var (s', success) := Unmerge(s, owner);
            && (success <==> s.entries[owner].ownerOf != UNMERGED)
            && (!success ==> s' == s)
            && (success ==>
                  && Live(s', r)
                  && (Visible(s', r, t) <==>
                        if r == owner || r == s.entries[owner].ownerOf then s.Source(r).Shows(t) else Visible(s, r, t)))
  {
    if s.entries[owner].ownerOf != UNMERGED {
      UnmergeShows(s, owner, r, t);
      UnlinkedShows(s, owner, r, t);
    }
  }

  lemma UnlinkedShows(s: State, owner: int, r: int, t: Task)
    requires Inv(s) && owner in s.entries && r in s.entries && s.entries[owner].ownerOf != UNMERGED
    ensures var u := Unlink(s, owner, s.entries[owner].ownerOf);
            && Live(u, r)
            && (Visible(u, r, t) <==>
                  if r == owner || r == s.entries[owner].ownerOf then s.Source(r).Shows(t) else Visible(s, r, t))
  {
    ScheduleRuns.UnlinkMatched(s, owner);
  }

  lemma SameShows(s: State, u: State, r: int, t: Task)
    requires Inv(s) && r in s.entries && SameTasks(s, u)
    ensures Live(u, r) && (Visible(u, r, t) <==> Visible(s, r, t))
  {
  }

  /** Registering shows the new task, with the next order number, to whoever sees that queue's
      tasks of the grade, and changes nothing else that is seen. */
  lemma RegisterShows(s: State, q: int, closure: int, time: int, grade: Grade, r: int, t: Task)
    requires Inv(s) && q in s.entries && r in s.entries
    ensures var s' := Register(s, q, closure, time, grade);
            && Live(s', r)
            && (Visible(s', r, t) <==>
                  || Visible(s, r, t)
                  || (t == Task(|s.log|, closure, time, grade) && s.entries[r].subsumedBy == UNMERGED
                      && (r == q || s.entries[r].ownerOf == q) && (grade == DartMicroTasks ==> s.Source(q).pauses == 0)))
  {
    var added := NewTask(s, closure, time, grade);
    var s1 := Posted(s, q, added);
    ScheduleRuns.RegisterNumbered(s, q, added);
    ScheduleRuns.SameLinks(s, s1);
    PostedShows(s, q, added, r, t);
    WakeShows(s1, LoopToWake(s, q), r, t);
  }

  lemma PostedShows(s: State, q: int, posted: Task, r: int, t: Task)
    requires Inv(s) && q in s.entries && r in s.entries && posted.order == |s.log| && Inv(Posted(s, q, posted))
    ensures Visible(Posted(s, q, posted), r, t) <==>
              || Visible(s, r, t)
              || (t == posted && s.entries[r].subsumedBy == UNMERGED
                  && (r == q || s.entries[r].ownerOf == q) && (posted.grade == DartMicroTasks ==> s.Source(q).pauses == 0))
  {
    RegisterAdds(s.Source(q), posted);
  }

  /** A new queue has a new id, no links and no tasks; the others stay as they are. */
  lemma CreateAdds(s: State, r: int)
    requires Inv(s)
    ensures var s' := Create(s);
            && s.counter !in s.entries && (r in s'.entries <==> r in s.entries || r == s.counter)
            && (r in s.entries ==> s'.entries[r] == s.entries[r])
            && s'.entries[s.counter].ownerOf == UNMERGED && s'.entries[s.counter].subsumedBy == UNMERGED
            && (forall t :: !s'.Source(s.counter).Has(t)) && s'.Source(s.counter).pauses == 0
  {
  }

  /** Disposing of a queue's tasks takes them, and those of the queue it subsumed, from sight. */
  lemma DisposeTasksHides(s: State, q: int, r: int, t: Task)
    requires Inv(s) && q in s.entries && r in s.entries && s.entries[q].subsumedBy == UNMERGED
    ensures var s' := DisposeTasks(s, q);
            && Live(s', r)
            && (Visible(s', r, t) <==> Visible(s, r, t) && r != q)
  {
  }

  /** Disposing of a queue removes it and the queue it subsumed, and leaves all others. */
  lemma DisposeRemoves(s: State, q: int, r: int)
    requires Inv(s) && q in s.entries && s.entries[q].subsumedBy == UNMERGED
    ensures var s' := Dispose(s, q);
            && (r in s'.entries <==> r in s.entries && r != q && r != s.entries[q].ownerOf)
            && (r in s'.entries ==> s'.entries[r] == s.entries[r])
  {
  }

  /** While a queue is paused nobody sees its secondary tasks, and everything else is as before. */
  lemma PauseHides(s: State, q: int, r: int, t: Task)
    requires Inv(s) && q in s.entries && r in s.entries
    ensures var s' := Pause(s, q);
            && Live(s', r)
            && (Visible(s', r, t) <==> Visible(s, r, t) && !(s.Source(q).Has(t) && t.grade == DartMicroTasks))
  {
    HeapOrder(s.Source(q).primary, false);
    HeapOrder(s.Source(q).secondary, true);
    forall p | p in s.entries && s.Source(p).Has(t) && s.Source(q).Has(t) ensures p == q {
      NumbersDiffer(s, p, q, t, t);
    }
  }

  /** Pauses nest: the secondary tasks are back when every pause has been resumed. */
  lemma ResumeUndoesPause(s: State, q: int, r: int, t: Task)
    requires Inv(s) && q in s.entries && r in s.entries
    ensures var s' := Pause(s, q);
            && Matched(s') && Live(Resume(s', q), r)
            && (Visible(Resume(s', q), r, t) <==> Visible(s, r, t))
  {
    ScheduleRuns.PauseInv(s, q);
    var s1 := Unpaused(Pause(s, q), q);
    assert s1.entries == s.entries;
    WakeShows(s1, q, r, t);
  }

  // ---------------------------------------------------------------- counting

  /** GetNumPendingTasks is the number of tasks that the queue sees. */
  lemma NumPendingCounts(s: State, q: int, seen: set<Task>)
    requires Inv(s) && q in s.entries && forall t :: t in seen <==> Visible(s, q, t)
    ensures |seen| == NumPending(s, q)
  {
    var e := s.entries[q];
    if e.subsumedBy != UNMERGED {
      assert seen == {};
    } else {
      var own := Shown(e.source);
      ShownCounts(s, q);
      if e.ownerOf == UNMERGED {
        assert seen == own;
      } else {
        var more := Shown(s.Source(e.ownerOf));
        ShownCounts(s, e.ownerOf);
        forall t | t in own && t in more ensures false {
          NumbersDiffer(s, q, e.ownerOf, t, t);
        }
        assert own * more == {};
        assert seen == own + more;
      }
    }
  }

  function Shown(source: Source): set<Task> {
    (set t | t in source.primary) + (if source.pauses == 0 then set t | t in source.secondary else {})
  }

  lemma ShownCounts(s: State, q: int)
    requires Inv(s) && q in s.entries
    ensures forall t :: t in Shown(s.Source(q)) <==> s.Source(q).Shows(t)
    ensures |Shown(s.Source(q))| == s.Source(q).Size()
  {
    var source := s.Source(q);
    HeapCounts(source.primary, false);
    HeapCounts(source.secondary, true);
    HeapOrder(source.primary, false);
    HeapOrder(source.secondary, true);
    assert (set t | t in source.primary) * (set t | t in source.secondary) == {};
  }

  lemma {:induction false} HeapCounts(tasks: seq<Task>, micro: bool)
    requires Heap(tasks, micro)
    ensures |set t | t in tasks| == |tasks|
  {
    if |tasks| == 0 {
      assert (set t | t in tasks) == {};
    } else {
      HeapCounts(tasks[1..], micro);
      TailOf(tasks, micro);
      assert (set t | t in tasks) == (set t | t in tasks[1..]) + {tasks[0]};
    }
  }
}
