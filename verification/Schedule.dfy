/** base/message_loop_task_queues.cc, every section under the lock as one step on the state: the
    queues by their ids, their merging in pairs, and the waking of their loops. */
module Schedule {
  import opened Tasks

  /** No queue. */
  const UNMERGED: int := -1

  datatype Option<T> = None | Some(value: T)

  /** lastWake is the time of the last WakeUp the queue's wakeable got. */
  datatype Entry = Entry(source: Source, ownerOf: int, subsumedBy: int, wakeable: bool, lastWake: Option<int>, observers: seq<int>)

  /** Task t was registered for queue q. */
  datatype Posting = Posting(q: int, t: Task)

  /** The order counter is the number of tasks registered so far; they are the log. */
  datatype State = State(entries: map<int, Entry>, counter: nat, log: seq<Posting>) {

    function Source(q: int): Source
      requires q in entries
    {
      entries[q].source
    }

    function With(q: int, e: Entry): State {
      this.(entries := entries[q := e])
    }
  }

  const INITIAL: State := State(map[], 0, [])

  /** owner_of and subsumed_by are a symmetric matching of live, distinct queues, and no queue
      has both roles. */
  ghost predicate Matched(s: State) {
    forall q :: q in s.entries ==>
      && 0 <= q < s.counter
      && (s.entries[q].ownerOf == UNMERGED || s.entries[q].subsumedBy == UNMERGED)
      && (s.entries[q].ownerOf != UNMERGED ==>
            s.entries[q].ownerOf in s.entries && s.entries[s.entries[q].ownerOf].subsumedBy == q)
      && (s.entries[q].subsumedBy != UNMERGED ==>
            s.entries[q].subsumedBy in s.entries && s.entries[s.entries[q].subsumedBy].ownerOf == q)
  }

  /** The heaps are in order, and a task with order number n is the n-th registered, in the
      queue it was registered for.  So no two tasks anywhere share a number. */
  ghost predicate Numbered(s: State) {
    && (forall q :: q in s.entries ==> s.Source(q).Valid())
    && (forall q, t :: q in s.entries && s.Source(q).Has(t) ==> Logged(s.log, q, t))
    && (forall n :: 0 <= n < |s.log| ==> s.log[n].t.order == n)
  }

  predicate Logged(log: seq<Posting>, q: int, t: Task) {
    t.order < |log| && log[t.order] == Posting(q, t)
  }

  ghost predicate Inv(s: State) {
    Matched(s) && Numbered(s)
  }

  lemma NumbersDiffer(s: State, q: int, r: int, t: Task, u: Task)
    requires Numbered(s) && q in s.entries && r in s.entries && s.Source(q).Has(t) && s.Source(r).Has(u)
    ensures t.order == u.order ==> q == r && t == u
  {
  }

  // ---------------------------------------------------------------- what a queue lets out

  predicate Live(s: State, q: int) {
    q in s.entries && (s.entries[q].ownerOf != UNMERGED ==> s.entries[q].ownerOf in s.entries)
  }

  /** HasPendingTasksUnlocked. */
  predicate HasPending(s: State, q: int)
    requires Live(s, q)
  {
    var e := s.entries[q];
    if e.subsumedBy != UNMERGED then false
    else if !e.source.IsEmpty() then true
    else e.ownerOf != UNMERGED && !s.Source(e.ownerOf).IsEmpty()
  }

  /** The queue whose source has the next task: PeekNextTaskUnlocked. */
  function TopQueue(s: State, q: int): (r: int)
    requires Live(s, q) && HasPending(s, q)
    ensures r in s.entries && (r == q || r == s.entries[q].ownerOf) && !s.Source(r).IsEmpty()
  {
    var sub := s.entries[q].ownerOf;
    if sub == UNMERGED then q
    else if !s.Source(q).IsEmpty() && !s.Source(sub).IsEmpty() then
      if After(s.Source(q).Top(), s.Source(sub).Top()) then sub else q
    else if !s.Source(q).IsEmpty() then q
    else sub
  }

  function Peek(s: State, q: int): Task
    requires Live(s, q) && HasPending(s, q)
  {
    s.Source(TopQueue(s, q)).Top()
  }

  /** The tasks a queue can run: its own and those of the queue it subsumed, as far as they are
      not paused; none while it is subsumed itself. */
  predicate Visible(s: State, q: int, t: Task)
    requires Live(s, q)
  {
    && s.entries[q].subsumedBy == UNMERGED
    && (s.Source(q).Shows(t) || (s.entries[q].ownerOf != UNMERGED && s.Source(s.entries[q].ownerOf).Shows(t)))
  }

  lemma PeekIsLeast(s: State, q: int)
    requires Matched(s) && Numbered(s) && q in s.entries
    ensures HasPending(s, q) <==> exists t :: Visible(s, q, t)
    ensures HasPending(s, q) ==> Visible(s, q, Peek(s, q))
    ensures HasPending(s, q) ==> forall t :: Visible(s, q, t) && t != Peek(s, q) ==> After(t, Peek(s, q))
  {
    var sub := s.entries[q].ownerOf;
    forall t, u | s.Source(q).Has(t) && s.Source(q).Has(u) && t.order == u.order ensures t == u {
      NumbersDiffer(s, q, q, t, u);
    }
    TopIsLeast(s.Source(q));
    if sub != UNMERGED {
      forall t, u | s.Source(sub).Has(t) && s.Source(sub).Has(u) && t.order == u.order ensures t == u {
        NumbersDiffer(s, sub, sub, t, u);
      }
      TopIsLeast(s.Source(sub));
    }
    if HasPending(s, q) {
      assert Visible(s, q, Peek(s, q));
      if sub != UNMERGED && !s.Source(q).IsEmpty() && !s.Source(sub).IsEmpty() {
        var a, b := s.Source(q).Top(), s.Source(sub).Top();
        NumbersDiffer(s, q, sub, a, b);
        forall t | Visible(s, q, t) && t != Peek(s, q) ensures After(t, Peek(s, q)) {
          LessThanBoth(a, b, t);
        }
      }
    }
  }

  lemma LessThanBoth(a: Task, b: Task, t: Task)
    requires a.order != b.order
    ensures After(a, b) && (t == a || After(t, a)) ==> After(t, b)
    ensures !After(a, b) && (t == b || After(t, b)) ==> After(t, a)
  {
  }

  // ---------------------------------------------------------------- the steps

  function WakeUp(s: State, q: int, time: int): (r: State)
    requires q in s.entries
    ensures r.entries.Keys == s.entries.Keys
  {
    if s.entries[q].wakeable then s.With(q, s.entries[q].(lastWake := Some(time))) else s
  }

  /** Wakes the queue's loop for its next task, if it has one. */
  function WakeForNext(s: State, q: int): (r: State)
    requires Live(s, q)
    ensures r.entries.Keys == s.entries.Keys
  {
    if HasPending(s, q) then WakeUp(s, q, Peek(s, q).time) else s
  }

  function Create(s: State): State {
    s.With(s.counter, Entry(EMPTY, UNMERGED, UNMERGED, false, None, [])).(counter := s.counter + 1)
  }

  function SetWakeable(s: State, q: int): (r: State)
    requires q in s.entries
    ensures r.entries.Keys == s.entries.Keys
  {
    s.With(q, s.entries[q].(wakeable := true))
  }

  function WithSource(s: State, q: int, source: Source): (r: State)
    requires q in s.entries
    ensures r.entries.Keys == s.entries.Keys
  {
    s.With(q, s.entries[q].(source := source))
  }

  function LoopToWake(s: State, q: int): int
    requires q in s.entries
  {
    if s.entries[q].subsumedBy != UNMERGED then s.entries[q].subsumedBy else q
  }

  function NewTask(s: State, closure: int, time: int, grade: Grade): Task {
    Task(|s.log|, closure, time, grade)
  }

  /** The task is in its heap and in the log. */
  function Posted(s: State, q: int, t: Task): (r: State)
    requires q in s.entries
    ensures r.entries.Keys == s.entries.Keys
  {
    WithSource(s, q, s.Source(q).Register(t)).(log := s.log + [Posting(q, t)])
  }

  function Register(s: State, q: int, closure: int, time: int, grade: Grade): (r: State)
    requires Matched(s) && q in s.entries
    ensures r.entries.Keys == s.entries.Keys
  {
    WakeForNext(Posted(s, q, NewTask(s, closure, time, grade)), LoopToWake(s, q))
  }

  function PopTop(s: State, p: int): (r: State)
    requires p in s.entries && s.Source(p).Valid() && !s.Source(p).IsEmpty()
    ensures r.entries.Keys == s.entries.Keys
  {
    PopRemovesTop(s.Source(p));
    WithSource(s, p, s.Source(p).Pop(s.Source(p).Top().grade))
  }

  /** GetNextTaskToRun.  It wakes the loop for the next task before it takes it. */
  function Next(s: State, q: int, now: int): (r: (State, Option<Task>))
    requires Matched(s) && Numbered(s) && q in s.entries
    ensures r.0.entries.Keys == s.entries.Keys
  {
    if !HasPending(s, q) then (s, None)
    else
      var s1 := WakeForNext(s, q);
      if Peek(s, q).time > now then (s1, None) else (PopTop(s1, TopQueue(s, q)), Some(Peek(s, q)))
  }

  function Link(s: State, owner: int, subsumed: int): (r: State)
    requires owner in s.entries && subsumed in s.entries
    ensures r.entries.Keys == s.entries.Keys
  {
    var s1 := s.With(owner, s.entries[owner].(ownerOf := subsumed));
    s1.With(subsumed, s1.entries[subsumed].(subsumedBy := owner))
  }

  function Merge(s: State, owner: int, subsumed: int): (r: (State, bool))
    requires Matched(s) && (owner != subsumed ==> owner in s.entries && subsumed in s.entries)
    ensures r.0.entries.Keys == s.entries.Keys
  {
    if owner == subsumed then (s, true)
    else if s.entries[owner].ownerOf == subsumed then (s, true)
    else if s.entries[owner].ownerOf != UNMERGED || s.entries[owner].subsumedBy != UNMERGED
            || s.entries[subsumed].ownerOf != UNMERGED || s.entries[subsumed].subsumedBy != UNMERGED then (s, false)
    else (WakeForNext(Link(s, owner, subsumed), owner), true)
  }

  function Unlink(s: State, owner: int, subsumed: int): (r: State)
    requires owner in s.entries && subsumed in s.entries
    ensures r.entries.Keys == s.entries.Keys
  {
    var s1 := s.With(subsumed, s.entries[subsumed].(subsumedBy := UNMERGED));
    s1.With(owner, s1.entries[owner].(ownerOf := UNMERGED))
  }

  function Unmerge(s: State, owner: int): (r: (State, bool))
    requires Matched(s) && owner in s.entries
    ensures r.0.entries.Keys == s.entries.Keys
  {
    var subsumed := s.entries[owner].ownerOf;
    if subsumed == UNMERGED then (s, false)
    else (WakeForNext(WakeForNext(Unlink(s, owner, subsumed), owner), subsumed), true)
  }

  function WithPauses(s: State, q: int, pauses: int): (r: State)
    requires q in s.entries
    ensures r.entries.Keys == s.entries.Keys
  {
    WithSource(s, q, s.Source(q).(pauses := pauses))
  }

  function Pause(s: State, q: int): (r: State)
    requires q in s.entries
    ensures r.entries.Keys == s.entries.Keys
  {
    WithPauses(s, q, s.Source(q).pauses + 1)
  }

  function Unpaused(s: State, q: int): (r: State)
    requires q in s.entries
    ensures r.entries.Keys == s.entries.Keys
  {
    WithPauses(s, q, s.Source(q).pauses - 1)
  }

  function Resume(s: State, q: int): (r: State)
    requires Matched(s) && q in s.entries
    ensures r.entries.Keys == s.entries.Keys
  {
    WakeForNext(Unpaused(s, q), q)
  }

  function ShutDown(s: State, q: int): (r: State)
    requires q in s.entries
    ensures r.entries.Keys == s.entries.Keys
  {
    WithSource(s, q, Source.Source([], [], s.Source(q).pauses))
  }

  function DisposeTasks(s: State, q: int): (r: State)
    requires Live(s, q)
    ensures r.entries.Keys == s.entries.Keys
  {
    var s1 := ShutDown(s, q);
    if s.entries[q].ownerOf != UNMERGED then ShutDown(s1, s.entries[q].ownerOf) else s1
  }

  function Dispose(s: State, q: int): State
    requires q in s.entries
  {
    s.(entries := s.entries - {q} - (if s.entries[q].ownerOf != UNMERGED then {s.entries[q].ownerOf} else {}))
  }

  /** GetNumPendingTasks. */
  function NumPending(s: State, q: int): nat
    requires Live(s, q)
  {
    var e := s.entries[q];
    if e.subsumedBy != UNMERGED then 0
    else e.source.Size() + (if e.ownerOf != UNMERGED then s.Source(e.ownerOf).Size() else 0)
  }

  /** GetObserversToNotify. */
  function Observers(s: State, q: int): seq<int>
    requires Live(s, q)
  {
    var e := s.entries[q];
    if e.subsumedBy != UNMERGED then []
    else e.observers + (if e.ownerOf != UNMERGED then s.entries[e.ownerOf].observers else [])
  }
}
