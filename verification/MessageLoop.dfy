/** base/message_loop_impl.cc: a loop runs the tasks of its queue that are due.  The tasks here
    neither post nor pause nor merge. */
module MessageLoop {
  import opened Tasks
  import opened Schedule
  import ScheduleRuns
  import opened TaskQueues

  datatype FlushType = Single | All

  /** What a flush does: run a task, call an observer. */
  datatype Event = Ran(t: Task) | Notified(observer: int)

  /** Every task run, and after each of them all observers. */
  function Trace(ran: seq<Task>, observers: seq<int>): seq<Event> {
    if |ran| == 0 then []
    else [Ran(ran[0])] + Notices(observers) + Trace(ran[1..], observers)
  }

  function Notices(observers: seq<int>): seq<Event> {
    seq(|observers|, i requires 0 <= i < |observers| => Notified(observers[i]))
  }

  /** The event at turn k and place j: the k-th task runs, and then observer j - 1 is called. */
  predicate EventAt(trace: seq<Event>, ran: seq<Task>, observers: seq<int>, k: nat, j: nat)
    requires k < |ran| && j <= |observers|
  {
    var i := k * (1 + |observers|) + j;
    0 <= i < |trace| && trace[i] == if j == 0 then Ran(ran[k]) else Notified(observers[j - 1])
  }

  /** The trace is nothing but these events. */
  lemma {:induction false} TraceByPosition(ran: seq<Task>, observers: seq<int>, k: nat, j: nat)
    ensures |Trace(ran, observers)| == |ran| * (1 + |observers|)
    ensures k < |ran| && j <= |observers| ==> EventAt(Trace(ran, observers), ran, observers, k, j)
  {
    if |ran| > 0 {
      var n := 1 + |observers|;
      var first, rest := [Ran(ran[0])] + Notices(observers), Trace(ran[1..], observers);
      assert Trace(ran, observers) == first + rest && |first| == n;
      TraceByPosition(ran[1..], observers, if k > 0 then k - 1 else 0, j);
      TurnsOfRest(|ran|, k, n);
      if 0 < k < |ran| && j <= |observers| {
        TurnBefore(k, n, |ran|, j);
        assert Trace(ran, observers)[k * n + j] == rest[(k - 1) * n + j];
      }
    }
  }

  lemma TurnsOfRest(m: int, k: int, n: int)
    ensures m * n == n + (m - 1) * n && k * n == n + (k - 1) * n
  {
  }

  lemma TurnBefore(k: int, n: int, m: int, j: int)
    requires 0 < k < m && 0 <= j < n
    ensures 0 <= (k - 1) * n + j < (m - 1) * n
  {
    NonNegative(k - 1, n);
    NonNegative(m - k - 1, n);
    assert (m - 1) * n == (k - 1) * n + n + (m - k - 1) * n;
  }

  lemma NonNegative(a: nat, n: nat)
    ensures a * n >= 0
  {
  }

  /** For every task that ran there is one turn, and in it a call of each of the queue's own
      observers and then of each of those of the queue it subsumed.  A subsumed queue notifies
      nobody. */
  lemma TurnsNotify(s: State, q: int, ran: seq<Task>, k: nat, j: nat)
    requires Matched(s) && q in s.entries
    ensures var told := if s.entries[q].subsumedBy != UNMERGED then []
                        else if s.entries[q].ownerOf == UNMERGED then s.entries[q].observers
                        else s.entries[q].observers + s.entries[s.entries[q].ownerOf].observers;
            var trace := Trace(ran, Observers(s, q));
            && |trace| == |ran| * (1 + |told|)
            && (k < |ran| && j <= |told| ==> EventAt(trace, ran, told, k, j))
  {
    TraceByPosition(ran, Observers(s, q), k, j);
  }

  /** Taking tasks from queue q until none is due any more: what is left, and what ran. */
  function FlushAll(s: State, q: int, now: int): (r: (State, seq<Task>))
    requires Inv(s) && q in s.entries
    ensures Live(r.0, q)
    decreases NumPending(s, q)
  {
    ScheduleRuns.NextInv(s, q, now);
    NextVisible(s, q, now);
    var (s', taken) := Next(s, q, now);
    if taken.None? then (s', [])
    else
      var (end, ran) := FlushAll(s', q, now);
      (end, [taken.value] + ran)
  }

  /** From s0, the tasks `ran` were taken from queue q one after the other, and s is left. */
  ghost predicate Flushed(s0: State, s: State, q: int, now: int, ran: seq<Task>) {
    && Inv(s0) && Inv(s) && q in s0.entries && q in s.entries
    && s.log == s0.log && Observers(s, q) == Observers(s0, q)
    && s.entries[q].subsumedBy == s0.entries[q].subsumedBy
    && InOrder(ran) && Due(s0, q, now, ran) && Rest(s0, s, q, ran)
  }

  /** Strictly in the order of time and number, so no task twice. */
  ghost predicate InOrder(ran: seq<Task>) {
    forall i, j :: 0 <= i < j < |ran| ==> ScheduleRuns.Earlier(ran[i], ran[j])
  }

  ghost predicate Due(s0: State, q: int, now: int, ran: seq<Task>)
    requires Live(s0, q)
  {
    forall t :: t in ran ==> Visible(s0, q, t) && t.time <= now
  }

  /** What did not run is still to be seen, and comes after all that did. */
  ghost predicate Rest(s0: State, s: State, q: int, ran: seq<Task>)
    requires Live(s0, q) && Live(s, q)
  {
    && (forall t :: Visible(s, q, t) <==> Visible(s0, q, t) && t !in ran)
    && (forall i, t :: 0 <= i < |ran| && Visible(s, q, t) ==> ScheduleRuns.Earlier(ran[i], t))
  }

  /** Every visible task that is due has run. */
  ghost predicate Complete(s0: State, q: int, now: int, ran: seq<Task>)
    requires Live(s0, q)
  {
    forall t :: Visible(s0, q, t) && t.time <= now ==> t in ran
  }

  /** A flush runs exactly the visible tasks that are due, each once and in order. */
  lemma {:induction false} FlushIsExact(s: State, q: int, now: int)
    requires Inv(s) && q in s.entries
    ensures var (end, ran) := FlushAll(s, q, now); Flushed(s, end, q, now, ran) && Complete(s, q, now, ran)
    decreases NumPending(s, q)
  {
    var (s', taken) := Next(s, q, now);
    ScheduleRuns.NextInv(s, q, now);
    ScheduleRuns.NextIsLeast(s, q, now);
    NextVisible(s, q, now);
    if taken.Some? {
      FlushIsExact(s', q, now);
      var (end, ran) := FlushAll(s', q, now);
      Precede(s, s', end, q, now, taken.value, ran);
    }
  }

  lemma FlushStays(s: State, q: int, now: int)
    requires Inv(s) && q in s.entries
    ensures Matched(FlushAll(s, q, now).0) && FlushAll(s, q, now).0.entries[q].subsumedBy == s.entries[q].subsumedBy
  {
    FlushIsExact(s, q, now);
  }

  /** A task that comes before all others, taken first. */
  lemma Precede(s: State, s': State, end: State, q: int, now: int, t: Task, ran: seq<Task>)
    requires Live(s, q) && Live(s', q) && Live(end, q) && Visible(s, q, t) && t.time <= now
    requires forall u :: Visible(s', q, u) <==> Visible(s, q, u) && u != t
    requires forall u :: Visible(s, q, u) && u != t ==> ScheduleRuns.Earlier(t, u)
    requires InOrder(ran) && Due(s', q, now, ran) && Rest(s', end, q, ran) && Complete(s', q, now, ran)
    ensures InOrder([t] + ran) && Due(s, q, now, [t] + ran)
    ensures Rest(s, end, q, [t] + ran) && Complete(s, q, now, [t] + ran)
  {
    var all := [t] + ran;
    forall i, j | 0 <= i < j < |all| ensures ScheduleRuns.Earlier(all[i], all[j]) {
      assert all[j] == ran[j - 1] && ran[j - 1] in ran;
      assert i > 0 ==> all[i] == ran[i - 1];
    }
    forall i, u | 0 <= i < |all| && Visible(end, q, u) ensures ScheduleRuns.Earlier(all[i], u) {
      assert i > 0 ==> all[i] == ran[i - 1];
    }
  }

  /** GetNextTaskToRun takes the task it hands out out of sight, and nothing else. */
  lemma NextVisible(s: State, q: int, now: int)
    requires Inv(s) && q in s.entries
    ensures var (s', taken) := Next(s, q, now);
            && Live(s', q) && s'.log == s.log && Observers(s', q) == Observers(s, q)
            && s'.entries[q].subsumedBy == s.entries[q].subsumedBy
            && (forall t :: Visible(s', q, t) <==> Visible(s, q, t) && !(taken.Some? && t == taken.value))
            && (taken.Some? ==> NumPending(s', q) < NumPending(s, q))
  {
    if HasPending(s, q) {
      ScheduleRuns.WakeOnly(s, q);
      if Peek(s, q).time <= now {
        OnlyHere(s, q);
        PopVisible(WakeForNext(s, q), q, TopQueue(s, q));
      }
    }
  }

  /** Popping from a queue that q reads from. */
  lemma PopVisible(s: State, q: int, r: int)
    requires Live(s, q) && s.entries[q].subsumedBy == UNMERGED && s.entries[q].ownerOf != q
    requires r in s.entries && r != UNMERGED && (r == q || r == s.entries[q].ownerOf) && s.Source(r).Valid() && !s.Source(r).IsEmpty()
    requires forall p :: p in s.entries && s.Source(p).Has(s.Source(r).Top()) ==> p == r
    ensures var s' := PopTop(s, r);
            && Live(s', q) && s'.log == s.log && Observers(s', q) == Observers(s, q)
            && s'.entries[q].subsumedBy == s.entries[q].subsumedBy
            && (forall t :: Visible(s', q, t) <==> Visible(s, q, t) && t != s.Source(r).Top())
            && NumPending(s', q) < NumPending(s, q)
  {
    PopRemovesTop(s.Source(r));
    PopShrinks(s.Source(r));
    assert PopTop(s, r).Source(r).Size() < s.Source(r).Size();
    assert forall p :: p in s.entries && p != r ==> PopTop(s, r).entries[p] == s.entries[p];
  }

  lemma PopShrinks(source: Source)
    requires source.Valid() && !source.IsEmpty()
    ensures var g := source.Top().grade;
            && (if g == DartMicroTasks then |source.secondary| > 0 else |source.primary| > 0)
            && source.Pop(g).Size() == source.Size() - 1
  {
    HeapOrder(source.primary, false);
    HeapOrder(source.secondary, true);
  }

  /** The next task is in one queue only. */
  lemma OnlyHere(s: State, q: int)
    requires Inv(s) && q in s.entries && HasPending(s, q)
    ensures forall r :: r in s.entries && s.Source(r).Has(Peek(s, q)) ==> r == TopQueue(s, q)
  {
    var r0, t := TopQueue(s, q), Peek(s, q);
    ScheduleRuns.HeapTop(s.Source(r0));
    forall r | r in s.entries && s.Source(r).Has(t) ensures r == r0 {
      NumbersDiffer(s, r, r0, t, t);
    }
  }

  class MessageLoopImpl {
    const queues: MessageLoopTaskQueues
    const queueId: int
    var terminated: bool

    constructor (queues: MessageLoopTaskQueues, queueId: int)
      ensures this.queues == queues && this.queueId == queueId && !terminated
    {
      this.queues, this.queueId, terminated := queues, queueId, false;
    }

    /** Once the loop has terminated, the task is dropped. */
    method PostTask(closure: int, time: int)
      requires queues.Valid() && Inv(queues.State()) && queueId in queues.entries
      modifies queues, queues.Objects()
      ensures queues.Valid() && queues.entries == old(queues.entries)
      ensures queues.State() == if terminated then old(queues.State())
                                else Register(old(queues.State()), queueId, closure, time, Unspecified)
    {
      if terminated {
        return;
      }
      queues.RegisterTask(queueId, closure, time, Unspecified);
    }

    /** Flushes the queue, or takes one task from it, and notifies the observers after every
        task. */
    method FlushTasks(kind: FlushType, now: int) returns (trace: seq<Event>)
      requires queues.Valid() && Inv(queues.State()) && queueId in queues.entries
      modifies queues.Objects()
      ensures queues.Valid() && queues.entries == old(queues.entries)
      ensures var s, observers := old(queues.State()), Observers(old(queues.State()), queueId);
              if kind == All then
                queues.State() == FlushAll(s, queueId, now).0 && trace == Trace(FlushAll(s, queueId, now).1, observers)
              else
                queues.State() == Next(s, queueId, now).0 && trace == Trace(AsSeq(Next(s, queueId, now).1), observers)
    {
      trace := [];
      ghost var s0 := queues.State();
      while true
        invariant queues.Valid() && queues.entries == old(queues.entries) && Inv(queues.State())
        invariant Leads(s0, queues.State(), queueId, now, trace)
        invariant kind == Single ==> trace == [] && queues.State() == s0
        decreases NumPending(queues.State(), queueId)
      {
        TurnLeads(s0, queues.State(), queueId, now, trace);
        SingleTurn(queues.State(), queueId, now);
        var invoked;
        invoked, trace := Turn(now, trace);
        if !invoked || kind == Single {
          break;
        }
      }
    }

    /** The loop was run, and ends: it accepts no more tasks, runs those that are due, and drops
        all others. */
    method DoRun(now: int) returns (trace: seq<Event>)
      requires queues.Valid() && Inv(queues.State()) && queueId in queues.entries
      requires queues.State().entries[queueId].subsumedBy == UNMERGED
      modifies this, queues.Objects()
      ensures queues.Valid() && queues.entries == old(queues.entries) && terminated
      ensures var s := old(queues.State());
              if old(terminated) then queues.State() == s && trace == []
              else
                && trace == Trace(FlushAll(s, queueId, now).1, Observers(s, queueId))
                && queues.State() == DisposeTasks(FlushAll(s, queueId, now).0, queueId)
    {
      if terminated {
        return [];
      }
      ghost var s := queues.State();
      terminated := true;
      assert queues.Valid() && queues.State() == s;
      trace := WindUp(now);
    }

    method WindUp(now: int) returns (trace: seq<Event>)
      requires queues.Valid() && Inv(queues.State()) && queueId in queues.entries
      requires queues.State().entries[queueId].subsumedBy == UNMERGED
      modifies queues.Objects()
      ensures queues.Valid() && queues.entries == old(queues.entries)
      ensures var s := old(queues.State());
              && trace == Trace(FlushAll(s, queueId, now).1, Observers(s, queueId))
              && queues.State() == DisposeTasks(FlushAll(s, queueId, now).0, queueId)
    {
      ghost var s := queues.State();
      FlushStays(s, queueId, now);
      trace := FlushTasks(All, now);
      assert queues.State() == FlushAll(s, queueId, now).0;
      queues.DisposeTasks(queueId);
    }

    /** One turn of the loop. */
    method Turn(now: int, before: seq<Event>) returns (invoked: bool, trace: seq<Event>)
      requires queues.Valid() && Inv(queues.State()) && queueId in queues.entries
      modifies queues.Objects()
      ensures queues.Valid() && queues.entries == old(queues.entries)
      ensures queues.State() == Next(old(queues.State()), queueId, now).0
      ensures invoked <==> Next(old(queues.State()), queueId, now).1.Some?
      ensures trace == TurnTrace(old(queues.State()), queueId, now, before)
    {
      ghost var s := queues.State();
      ScheduleRuns.NextInv(s, queueId, now);
      NextVisible(s, queueId, now);
      var invocation := queues.GetNextTaskToRun(queueId, now);
      if invocation.None? {
        return false, before;
      }
      trace := before + [Ran(invocation.value)];
      var observers := queues.GetObserversToNotify(queueId);
      trace := trace + Notices(observers);
      return true, trace;
    }
  }

  /** What a turn adds to the trace. */
  function TurnTrace(s: State, q: int, now: int, before: seq<Event>): seq<Event>
    requires Inv(s) && q in s.entries
  {
    var taken := Next(s, q, now).1;
    if taken.None? then before else before + [Ran(taken.value)] + Notices(Observers(s, q))
  }

  /** From s with this trace, the flush of s0 goes on as it should. */
  ghost predicate Leads(s0: State, s: State, q: int, now: int, trace: seq<Event>)
    requires Inv(s0) && Inv(s) && q in s0.entries && q in s.entries
  {
    && Observers(s, q) == Observers(s0, q)
    && FlushAll(s, q, now).0 == FlushAll(s0, q, now).0
    && trace + Trace(FlushAll(s, q, now).1, Observers(s0, q)) == Trace(FlushAll(s0, q, now).1, Observers(s0, q))
  }

  lemma TurnLeads(s0: State, s: State, q: int, now: int, trace: seq<Event>)
    requires Inv(s0) && Inv(s) && q in s0.entries && q in s.entries && Leads(s0, s, q, now, trace)
    ensures var (s', taken) := Next(s, q, now);
            && Inv(s') && q in s'.entries
            && (taken.Some? ==> Leads(s0, s', q, now, TurnTrace(s, q, now, trace)) && NumPending(s', q) < NumPending(s, q))
            && (taken.None? ==> s' == FlushAll(s0, q, now).0 && trace == Trace(FlushAll(s0, q, now).1, Observers(s0, q)))
  {
    var (s', taken) := Next(s, q, now);
    ScheduleRuns.NextInv(s, q, now);
    NextVisible(s, q, now);
    if taken.Some? {
      FirstTraced(taken.value, FlushAll(s', q, now).1, Observers(s0, q), trace);
    }
  }

  lemma SingleTurn(s: State, q: int, now: int)
    requires Inv(s) && q in s.entries
    ensures TurnTrace(s, q, now, []) == Trace(AsSeq(Next(s, q, now).1), Observers(s, q))
  {
    if Next(s, q, now).1.Some? {
      FirstTraced(Next(s, q, now).1.value, [], Observers(s, q), []);
    }
  }

  lemma FirstTraced(t: Task, ran: seq<Task>, observers: seq<int>, before: seq<Event>)
    ensures before + Trace([t] + ran, observers) == before + [Ran(t)] + Notices(observers) + Trace(ran, observers)
  {
    assert ([t] + ran)[1..] == ran;
  }

  function AsSeq(t: Option<Task>): seq<Task> {
    if t.Some? then [t.value] else []
  }
}
