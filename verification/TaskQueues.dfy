/** The scheduler's objects, updated in place, each method proved against the step it performs. */
module TaskQueues {
  import opened Tasks
  import opened Schedule

  class TaskQueueEntry {
    const source: TaskSource
    var ownerOf: int
    var subsumedBy: int
    var wakeable: bool
    var lastWake: Option<int>
    var observers: seq<int>

    function Value(): Entry
      reads this, source
    {
      Entry(source.Value(), ownerOf, subsumedBy, wakeable, lastWake, observers)
    }

    constructor ()
      ensures Value() == Entry(EMPTY, UNMERGED, UNMERGED, false, None, []) && fresh(source)
    {
      source := new TaskSource();
      ownerOf, subsumedBy, wakeable, lastWake, observers := UNMERGED, UNMERGED, false, None, [];
    }
  }

  class MessageLoopTaskQueues {
    var entries: map<int, TaskQueueEntry>
    var counter: nat
    var order: nat
    ghost var log: seq<Posting>

    ghost function Objects(): set<object>
      reads this
    {
      (set q | q in entries :: entries[q]) + (set q | q in entries :: entries[q].source)
    }

    /** The entries and their sources are all different objects. */
    ghost predicate Valid()
      reads this
    {
      && order == |log|
      && (forall q, r :: q in entries && r in entries && q != r ==> entries[q] != entries[r] && entries[q].source != entries[r].source)
    }

    ghost function State(): State
      reads this, Objects()
    {
      Schedule.State(map q | q in entries :: entries[q].Value(), counter, log)
    }

    constructor ()
      ensures Valid() && State() == INITIAL && Objects() == {}
    {
      entries, counter, order, log := map[], 0, 0, [];
    }

    method CreateTaskQueue() returns (id: int)
      requires Valid() && Matched(State())
      modifies this
      ensures Valid() && State() == Create(old(State())) && id == old(counter)
      ensures fresh(Objects() - old(Objects()))
    {
      id := counter;
      counter := counter + 1;
      var entry := new TaskQueueEntry();
      entries := entries[id := entry];
    }

    // The single updates.  Each changes one object, and the state at one queue.

    method SourceRegister(q: int, t: Task)
      requires Valid() && q in entries
      modifies entries[q].source
      ensures Valid() && State() == WithSource(old(State()), q, old(State()).Source(q).Register(t))
    {
      entries[q].source.RegisterTask(t);
      assert forall r :: r in entries && r != q ==> entries[r].Value() == old(entries[r].Value());
    }

    method SourcePop(q: int, grade: Grade)
      requires Valid() && q in entries
      requires if grade == DartMicroTasks then |entries[q].source.secondary| > 0 else |entries[q].source.primary| > 0
      modifies entries[q].source
      ensures Valid() && State() == WithSource(old(State()), q, old(State()).Source(q).Pop(grade))
    {
      entries[q].source.PopTask(grade);
      assert forall r :: r in entries && r != q ==> entries[r].Value() == old(entries[r].Value());
    }

    method SourceShutDown(q: int)
      requires Valid() && q in entries
      modifies entries[q].source
      ensures Valid() && State() == WithSource(old(State()), q, old(State()).Source(q).(primary := [], secondary := []))
    {
      entries[q].source.ShutDown();
      assert forall r :: r in entries && r != q ==> entries[r].Value() == old(entries[r].Value());
    }

    method SourcePause(q: int)
      requires Valid() && q in entries
      modifies entries[q].source
      ensures Valid() && State() == WithSource(old(State()), q, old(State()).Source(q).(pauses := old(entries[q].source.pauses) + 1))
    {
      entries[q].source.PauseSecondary();
      assert forall r :: r in entries && r != q ==> entries[r].Value() == old(entries[r].Value());
    }

    method SourceResume(q: int)
      requires Valid() && q in entries
      modifies entries[q].source
      ensures Valid() && State() == WithSource(old(State()), q, old(State()).Source(q).(pauses := old(entries[q].source.pauses) - 1))
    {
      entries[q].source.ResumeSecondary();
      assert forall r :: r in entries && r != q ==> entries[r].Value() == old(entries[r].Value());
    }

    method SetOwnerOf(q: int, x: int)
      requires Valid() && q in entries
      modifies entries[q]
      ensures Valid() && State() == old(State()).With(q, old(State()).entries[q].(ownerOf := x))
    {
      entries[q].ownerOf := x;
      assert forall r :: r in entries && r != q ==> entries[r].Value() == old(entries[r].Value());
    }

    method SetSubsumedBy(q: int, x: int)
      requires Valid() && q in entries
      modifies entries[q]
      ensures Valid() && State() == old(State()).With(q, old(State()).entries[q].(subsumedBy := x))
    {
      entries[q].subsumedBy := x;
      assert forall r :: r in entries && r != q ==> entries[r].Value() == old(entries[r].Value());
    }

    method SetLastWake(q: int, time: Option<int>)
      requires Valid() && q in entries
      modifies entries[q]
      ensures Valid() && State() == old(State()).With(q, old(State()).entries[q].(lastWake := time))
    {
      entries[q].lastWake := time;
      assert forall r :: r in entries && r != q ==> entries[r].Value() == old(entries[r].Value());
    }

    // What the source reads under the lock.

    method HasPendingTasksUnlocked(q: int) returns (pending: bool)
      requires Valid() && Live(State(), q)
      ensures pending <==> HasPending(State(), q)
    {
      var entry := entries[q];
      assert State().entries[q] == entry.Value();
      if entry.subsumedBy != UNMERGED {
        return false;
      }
      var empty := entry.source.IsEmpty();
      if !empty {
        return true;
      }
      var subsumed := entry.ownerOf;
      if subsumed == UNMERGED {
        return false;
      }
      assert State().entries[subsumed] == entries[subsumed].Value();
      empty := entries[subsumed].source.IsEmpty();
      return !empty;
    }

    method PeekNextTaskUnlocked(q: int) returns (r: int, t: Task)
      requires Valid() && Live(State(), q) && HasPending(State(), q)
      ensures r == TopQueue(State(), q) && t == Peek(State(), q)
    {
      var entry := entries[q];
      assert State().entries[q] == entry.Value();
      var subsumed := entry.ownerOf;
      if subsumed == UNMERGED {
        t := entry.source.Top();
        return q, t;
      }
      assert State().entries[subsumed] == entries[subsumed].Value();
      var subsumedEmpty := entries[subsumed].source.IsEmpty();
      var ownerEmpty := entry.source.IsEmpty();
      r := q;
      if !ownerEmpty && !subsumedEmpty {
        var ownerTask := entry.source.Top();
        var subsumedTask := entries[subsumed].source.Top();
        if After(ownerTask, subsumedTask) {
          r := subsumed;
        }
      } else if ownerEmpty {
        r := subsumed;
      }
      t := entries[r].source.Top();
    }

    method WakeUpUnlocked(q: int, time: int)
      requires Valid() && q in entries
      modifies entries[q]
      ensures Valid() && State() == WakeUp(old(State()), q, time)
    {
      assert State().entries[q] == entries[q].Value();
      if entries[q].wakeable {
        SetLastWake(q, Some(time));
      }
    }

    method WakeForNextUnlocked(q: int)
      requires Valid() && Live(State(), q)
      modifies entries[q]
      ensures Valid() && State() == WakeForNext(old(State()), q)
    {
      ghost var s := State();
      var pending := HasPendingTasksUnlocked(q);
      if pending {
        var r, t := PeekNextTaskUnlocked(q);
        assert Valid() && State() == s;
        WakeUpUnlocked(q, t.time);
      }
    }

    // The sections under the lock.

    method RegisterTask(q: int, closure: int, time: int, grade: Grade)
      requires Valid() && Inv(State()) && q in entries
      modifies this, Objects()
      ensures Valid() && entries == old(entries) && State() == Register(old(State()), q, closure, time, grade)
    {
      assert State().entries[q] == entries[q].Value();
      AddTask(q, closure, time, grade);
      var loop := q;
      if entries[q].subsumedBy != UNMERGED {
        loop := entries[q].subsumedBy;
      }
      WakeForNextUnlocked(loop);
    }

    method AddTask(q: int, closure: int, time: int, grade: Grade)
      requires Valid() && q in entries
      modifies this`order, this`log, entries[q].source
      ensures Valid() && entries == old(entries) && State() == Posted(old(State()), q, NewTask(old(State()), closure, time, grade))
    {
      var t := Task(order, closure, time, grade);
      order := order + 1;
      log := log + [Posting(q, t)];
      SourceRegister(q, t);
    }

    method HasPendingTasks(q: int) returns (pending: bool)
      requires Valid() && Inv(State()) && q in entries
      ensures pending <==> exists t :: Visible(State(), q, t)
    {
      pending := HasPendingTasksUnlocked(q);
      PeekIsLeast(State(), q);
    }

    method GetNextTaskToRun(q: int, now: int) returns (taken: Option<Task>)
      requires Valid() && Inv(State()) && q in entries
      modifies Objects()
      ensures Valid() && entries == old(entries) && (State(), taken) == Next(old(State()), q, now)
    {
      var pending := HasPendingTasksUnlocked(q);
      if !pending {
        return None;
      }
      var r, top := PeekNextTaskUnlocked(q);
      WakeForNextUnlocked(q);
      if top.time > now {
        return None;
      }
      assert State().entries[r] == entries[r].Value();
      PopRemovesTop(entries[r].source.Value());
      SourcePop(r, top.grade);
      return Some(top);
    }

    method GetNumPendingTasks(q: int) returns (total: nat)
      requires Valid() && Matched(State()) && q in entries
      ensures total == NumPending(State(), q)
    {
      assert State().entries[q] == entries[q].Value();
      if entries[q].subsumedBy != UNMERGED {
        return 0;
      }
      total := entries[q].source.GetNumPendingTasks();
      var subsumed := entries[q].ownerOf;
      if subsumed != UNMERGED {
        assert State().entries[subsumed] == entries[subsumed].Value();
        var more := entries[subsumed].source.GetNumPendingTasks();
        total := total + more;
      }
    }

    method GetObserversToNotify(q: int) returns (observers: seq<int>)
      requires Valid() && Matched(State()) && q in entries
      ensures observers == Observers(State(), q)
    {
      assert State().entries[q] == entries[q].Value();
      if entries[q].subsumedBy != UNMERGED {
        return [];
      }
      observers := entries[q].observers;
      var subsumed := entries[q].ownerOf;
      if subsumed != UNMERGED {
        assert State().entries[subsumed] == entries[subsumed].Value();
        observers := observers + entries[subsumed].observers;
      }
    }

    method Merge(owner: int, subsumed: int) returns (merged: bool)
      requires Valid() && Inv(State()) && (owner != subsumed ==> owner in entries && subsumed in entries)
      modifies Objects()
      ensures Valid() && entries == old(entries) && (State(), merged) == Schedule.Merge(old(State()), owner, subsumed)
    {
      if owner == subsumed {
        return true;
      }
      assert State().entries[owner] == entries[owner].Value() && State().entries[subsumed] == entries[subsumed].Value();
      if entries[owner].ownerOf == subsumed {
        return true;
      }
      if entries[owner].ownerOf != UNMERGED || entries[owner].subsumedBy != UNMERGED
         || entries[subsumed].ownerOf != UNMERGED || entries[subsumed].subsumedBy != UNMERGED {
        return false;
      }
      SetOwnerOf(owner, subsumed);
      SetSubsumedBy(subsumed, owner);
      WakeForNextUnlocked(owner);
      return true;
    }

    method Unmerge(owner: int) returns (unmerged: bool)
      requires Valid() && Inv(State()) && owner in entries
      modifies Objects()
      ensures Valid() && entries == old(entries) && (State(), unmerged) == Schedule.Unmerge(old(State()), owner)
    {
      assert State().entries[owner] == entries[owner].Value();
      var subsumed := entries[owner].ownerOf;
      if subsumed == UNMERGED {
        return false;
      }
      SetSubsumedBy(subsumed, UNMERGED);
      SetOwnerOf(owner, UNMERGED);
      WakeForNextUnlocked(owner);
      WakeForNextUnlocked(subsumed);
      return true;
    }

    method Owns(owner: int, subsumed: int) returns (owns: bool)
      requires Valid() && owner in entries
      ensures owns <==> owner != UNMERGED && subsumed != UNMERGED && State().entries[owner].ownerOf == subsumed
    {
      assert State().entries[owner] == entries[owner].Value();
      owns := owner != UNMERGED && subsumed != UNMERGED && subsumed == entries[owner].ownerOf;
    }

    method PauseSecondarySource(q: int)
      requires Valid() && q in entries
      modifies entries[q].source
      ensures Valid() && State() == Pause(old(State()), q)
    {
      SourcePause(q);
    }

    method ResumeSecondarySource(q: int)
      requires Valid() && Inv(State()) && q in entries && entries[q].source.pauses > 0
      modifies Objects()
      ensures Valid() && entries == old(entries) && State() == Resume(old(State()), q)
    {
      SourceResume(q);
      WakeForNextUnlocked(q);
    }

    method DisposeTasks(q: int)
      requires Valid() && Matched(State()) && q in entries && entries[q].subsumedBy == UNMERGED
      modifies Objects()
      ensures Valid() && entries == old(entries) && State() == Schedule.DisposeTasks(old(State()), q)
    {
      assert State().entries[q] == entries[q].Value();
      var subsumed := entries[q].ownerOf;
      SourceShutDown(q);
      if subsumed != UNMERGED {
        SourceShutDown(subsumed);
      }
    }

    method Dispose(q: int)
      requires Valid() && q in entries && entries[q].subsumedBy == UNMERGED
      modifies this
      ensures Valid() && State() == Schedule.Dispose(old(State()), q) && Objects() <= old(Objects())
    {
      assert State().entries[q] == entries[q].Value();
      var subsumed := entries[q].ownerOf;
      entries := entries - {q};
      if subsumed != UNMERGED {
        entries := entries - {subsumed};
      }
    }

    method SetWakeable(q: int)
      requires Valid() && q in entries && !entries[q].wakeable
      modifies entries[q]
      ensures Valid() && State() == Schedule.SetWakeable(old(State()), q)
    {
      entries[q].wakeable := true;
      assert forall r :: r in entries && r != q ==> entries[r].Value() == old(entries[r].Value());
    }
  }
}
