/** base/delayed_task.cc and base/task_source.cc: tasks, their order, and the pair of heaps that
    one queue keeps them in. */
module Tasks {

  datatype Grade = UserInteraction | DartMicroTasks | Unspecified

  /** The closure is an opaque number. */
  datatype Task = Task(order: nat, closure: int, time: int, grade: Grade)

  /** DelayedTask::operator>. */
  predicate After(a: Task, b: Task) {
    if a.time == b.time then a.order > b.order else a.time > b.time
  }

  /** On tasks with different orders it is a strict total order. */
  lemma AfterIsTotal(a: Task, b: Task, c: Task)
    ensures !After(a, a)
    ensures After(a, b) && After(b, c) ==> After(a, c)
    ensures a.order != b.order ==> (After(a, b) <==> !After(b, a))
  {
  }

  /** A heap of one kind, as the sequence in which it hands out its tasks. */
  ghost predicate Heap(tasks: seq<Task>, micro: bool) {
    |tasks| == 0
    || (&& (tasks[0].grade == DartMicroTasks <==> micro)
        && (|tasks| > 1 ==> After(tasks[1], tasks[0]))
        && Heap(tasks[1..], micro))
  }

  /** The first task is before all others. */
  lemma {:induction false} HeapOrder(tasks: seq<Task>, micro: bool)
    requires Heap(tasks, micro)
    ensures forall t :: t in tasks ==> (t.grade == DartMicroTasks <==> micro)
    ensures forall i :: 0 < i < |tasks| ==> After(tasks[i], tasks[0])
  {
    if |tasks| > 0 {
      HeapOrder(tasks[1..], micro);
      assert tasks == [tasks[0]] + tasks[1..];
      forall i | 0 < i < |tasks| ensures After(tasks[i], tasks[0]) {
        if i > 1 {
          assert tasks[i] == tasks[1..][i - 1];
        }
      }
    }
  }

  /** ... and every task before all that follow it. */
  lemma {:induction false} HeapSorted(tasks: seq<Task>, micro: bool, i: nat, j: nat)
    requires Heap(tasks, micro) && i < j < |tasks|
    ensures After(tasks[j], tasks[i])
  {
    if i == 0 {
      HeapOrder(tasks, micro);
    } else {
      HeapSorted(tasks[1..], micro, i - 1, j - 1);
    }
  }

  function Insert(tasks: seq<Task>, t: Task): (r: seq<Task>)
    ensures |r| == |tasks| + 1
  {
    if |tasks| == 0 then [t]
    else if After(tasks[0], t) then [t] + tasks
    else [tasks[0]] + Insert(tasks[1..], t)
  }

  /** Inserting a task whose order is new keeps the heap and adds exactly the task. */
  lemma {:induction false} InsertHeap(tasks: seq<Task>, micro: bool, t: Task)
    requires Heap(tasks, micro) && (t.grade == DartMicroTasks <==> micro)
    requires forall x :: x in tasks ==> x.order != t.order
    ensures Heap(Insert(tasks, t), micro)
    ensures forall x :: x in Insert(tasks, t) <==> x in tasks || x == t
  {
    if |tasks| > 0 {
      var rest := tasks[1..];
      assert tasks == [tasks[0]] + rest;
      if After(tasks[0], t) {
        assert ([t] + tasks)[1..] == tasks;
      } else {
        InsertHeap(rest, micro, t);
        assert ([tasks[0]] + Insert(rest, t))[1..] == Insert(rest, t);
        assert Insert(rest, t)[0] == t || (|rest| > 0 && Insert(rest, t)[0] == rest[0]);
      }
    }
  }

  /** The value of a task source: its two heaps, and how often the secondary one is paused. */
  datatype Source = Source(primary: seq<Task>, secondary: seq<Task>, pauses: int) {

    /** The tasks it has, and the ones it lets out now. */
    predicate Has(t: Task) {
      t in primary || t in secondary
    }

    predicate Shows(t: Task) {
      t in primary || (pauses == 0 && t in secondary)
    }

    function Size(): nat {
      if pauses == 0 then |primary| + |secondary| else |primary|
    }

    predicate IsEmpty() {
      Size() == 0
    }

    function Top(): Task
      requires !IsEmpty()
    {
      if pauses > 0 || |secondary| == 0 then primary[0]
      else if |primary| == 0 then secondary[0]
      else if After(primary[0], secondary[0]) then secondary[0]
      else primary[0]
    }

    function Register(t: Task): Source {
      if t.grade == DartMicroTasks then this.(secondary := Insert(secondary, t))
      else this.(primary := Insert(primary, t))
    }

    function Pop(grade: Grade): Source
      requires if grade == DartMicroTasks then |secondary| > 0 else |primary| > 0
    {
      if grade == DartMicroTasks then this.(secondary := secondary[1..])
      else this.(primary := primary[1..])
    }

    ghost predicate Valid() {
      pauses >= 0 && Heap(primary, false) && Heap(secondary, true)
    }

    /** No two tasks have the same order number. */
    ghost predicate Distinct() {
      forall t, u :: Has(t) && Has(u) && t.order == u.order ==> t == u
    }
  }

  const EMPTY: Source := Source([], [], 0)

  /** Empty means that nothing shows, and otherwise Top is the least task that does. */
  lemma TopIsLeast(s: Source)
    requires s.Valid() && s.Distinct()
    ensures s.IsEmpty() <==> forall t :: !s.Shows(t)
    ensures !s.IsEmpty() ==> s.Shows(s.Top()) && forall t :: s.Shows(t) && t != s.Top() ==> After(t, s.Top())
  {
    HeapOrder(s.primary, false);
    HeapOrder(s.secondary, true);
    if !s.IsEmpty() {
      assert s.Shows(s.Top());
      if |s.primary| > 0 && |s.secondary| > 0 {
        assert s.Has(s.primary[0]) && s.Has(s.secondary[0]);
      }
      forall t | s.Shows(t) && t != s.Top() ensures After(t, s.Top()) {
        if |s.primary| > 0 && |s.secondary| > 0 {
          AfterIsTotal(t, s.primary[0], s.secondary[0]);
          AfterIsTotal(t, s.secondary[0], s.primary[0]);
        }
      }
    } else {
      assert forall t :: !s.Shows(t);
    }
  }

  /** Popping by the grade of the top task removes exactly the top task. */
  lemma PopRemovesTop(s: Source)
    requires s.Valid() && !s.IsEmpty()
    ensures var g := s.Top().grade;
            && (if g == DartMicroTasks then |s.secondary| > 0 else |s.primary| > 0)
            && s.Pop(g).Valid() && s.Pop(g).pauses == s.pauses
            && (forall t :: s.Pop(g).Has(t) <==> s.Has(t) && t != s.Top())
            && (forall t :: s.Pop(g).Shows(t) <==> s.Shows(t) && t != s.Top())
  {
    HeapOrder(s.primary, false);
    HeapOrder(s.secondary, true);
    if s.Top().grade == DartMicroTasks {
      TailOf(s.secondary, true);
    } else {
      TailOf(s.primary, false);
    }
  }

  lemma TailOf(tasks: seq<Task>, micro: bool)
    requires Heap(tasks, micro) && |tasks| > 0
    ensures Heap(tasks[1..], micro) && forall t :: t in tasks[1..] <==> t in tasks && t != tasks[0]
  {
    HeapOrder(tasks, micro);
    assert tasks == [tasks[0]] + tasks[1..];
  }

  lemma RegisterAdds(s: Source, t: Task)
    requires s.Valid() && forall x :: s.Has(x) ==> x.order != t.order
    ensures s.Register(t).Valid() && s.Register(t).pauses == s.pauses
    ensures forall x :: s.Register(t).Has(x) <==> s.Has(x) || x == t
    ensures forall x :: s.Register(t).Shows(x) <==> s.Shows(x) || (x == t && (t.grade == DartMicroTasks ==> s.pauses == 0))
  {
    if t.grade == DartMicroTasks {
      InsertHeap(s.secondary, true, t);
    } else {
      InsertHeap(s.primary, false, t);
    }
  }

  /** The object: its methods do what the functions on its value say. */
  class TaskSource {
    var primary: seq<Task>
    var secondary: seq<Task>
    var pauses: int

    function Value(): Source
      reads this
    {
      Source(primary, secondary, pauses)
    }

    constructor ()
      ensures Value() == EMPTY
    {
      primary, secondary, pauses := [], [], 0;
    }

    method ShutDown()
      modifies this
      ensures Value() == old(Value()).(primary := [], secondary := [])
    {
      primary, secondary := [], [];
    }

    method RegisterTask(t: Task)
      modifies this
      ensures Value() == old(Value()).Register(t)
    {
      match t.grade
      case UserInteraction => primary := Insert(primary, t);
      case Unspecified => primary := Insert(primary, t);
      case DartMicroTasks => secondary := Insert(secondary, t);
    }

    method PopTask(grade: Grade)
      requires if grade == DartMicroTasks then |secondary| > 0 else |primary| > 0
      modifies this
      ensures Value() == old(Value()).Pop(grade)
    {
      match grade
      case UserInteraction => primary := primary[1..];
      case Unspecified => primary := primary[1..];
      case DartMicroTasks => secondary := secondary[1..];
    }

    method GetNumPendingTasks() returns (size: nat)
      ensures size == Value().Size()
    {
      size := |primary|;
      if pauses == 0 {
        size := size + |secondary|;
      }
    }

    method IsEmpty() returns (empty: bool)
      ensures empty <==> Value().IsEmpty()
    {
      var size := GetNumPendingTasks();
      empty := size == 0;
    }

    method Top() returns (t: Task)
      requires !Value().IsEmpty()
      ensures t == Value().Top()
    {
      if pauses > 0 || |secondary| == 0 {
        t := primary[0];
      } else if |primary| == 0 {
        t := secondary[0];
      } else if After(primary[0], secondary[0]) {
        t := secondary[0];
      } else {
        t := primary[0];
      }
    }

    method PauseSecondary()
      modifies this
      ensures Value() == old(Value()).(pauses := old(pauses) + 1)
    {
      pauses := pauses + 1;
    }

    method ResumeSecondary()
      modifies this
      ensures Value() == old(Value()).(pauses := old(pauses) - 1)
    {
      pauses := pauses - 1;
    }
  }
}
