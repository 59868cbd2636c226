/** The timed worker: a bounded queue ordered by deadline, served by one thread, stopped by a task of its own. */
module Worker {

  type Time = int

  /** A task, or the one with which the destructor sets `m_stop`. */
  datatype Task = Work(id: nat) | Stop

  /** An entry of the multimap; `order` counts insertions. */
  datatype Entry = Entry(deadline: Time, order: nat, task: Task)

  /** A task that the thread has taken, and when. */
  datatype Taken = Taken(entry: Entry, start: Time)

  /** By deadline, then by insertion. */
  predicate Before(a: Entry, b: Entry) {
    a.deadline < b.deadline || (a.deadline == b.deadline && a.order < b.order)
  }

  /** `std::multimap::emplace`: behind all entries with the same deadline. */
  function Insert(tasks: seq<Entry>, e: Entry): seq<Entry> {
    if tasks == [] then [e]
    else if e.deadline < tasks[0].deadline then [e] + tasks
    else [tasks[0]] + Insert(tasks[1..], e)
  }

  predicate Ordered(tasks: seq<Entry>) {
    forall i, j | 0 <= i < j < |tasks| :: Before(tasks[i], tasks[j])
  }

  predicate Older(tasks: seq<Entry>, order: nat) {
    forall e | e in tasks :: e.order < order
  }

  lemma {:induction false} InsertedElements(tasks: seq<Entry>, e: Entry)
    ensures multiset(Insert(tasks, e)) == multiset(tasks) + multiset{e}
    ensures |Insert(tasks, e)| == |tasks| + 1
  {
    if tasks != [] && e.deadline >= tasks[0].deadline {
      InsertedElements(tasks[1..], e);
      assert tasks == [tasks[0]] + tasks[1..];
    }
  }

  lemma {:induction false} Inserted(tasks: seq<Entry>, e: Entry)
    requires Ordered(tasks) && Older(tasks, e.order)
    ensures Ordered(Insert(tasks, e))
    ensures multiset(Insert(tasks, e)) == multiset(tasks) + multiset{e}
    ensures |Insert(tasks, e)| == |tasks| + 1
  {
    hide Ordered;
    TailOrdered(tasks);
    InsertedElements(tasks, e);
    if tasks != [] {
      assert tasks[0] in tasks;
      if e.deadline >= tasks[0].deadline {
        Inserted(tasks[1..], e);
        BehindHead(tasks, e);
        Prepended(tasks[0], Insert(tasks[1..], e));
      } else {
        Prepended(e, tasks);
      }
    }
  }

  lemma BehindHead(tasks: seq<Entry>, e: Entry)
    requires tasks != [] && Ordered(tasks) && Before(tasks[0], e)
    ensures forall j | 0 <= j < |Insert(tasks[1..], e)| :: Before(tasks[0], Insert(tasks[1..], e)[j])
  {
    var rest := Insert(tasks[1..], e);
    InsertedElements(tasks[1..], e);
    forall j | 0 <= j < |rest|
      ensures Before(tasks[0], rest[j])
    {
      assert rest[j] in multiset(rest);
      assert rest[j] in tasks[1..] || rest[j] == e;
    }
  }

  lemma TailOrdered(tasks: seq<Entry>)
    requires Ordered(tasks)
    ensures tasks != [] ==> Ordered(tasks[1..])
    ensures forall j | 0 < j < |tasks| :: Before(tasks[0], tasks[j])
    ensures forall e :: Ordered([e])
  {
  }

  lemma Prepended(e: Entry, rest: seq<Entry>)
    requires Ordered(rest) && forall j | 0 <= j < |rest| :: Before(e, rest[j])
    ensures Ordered([e] + rest)
  {
  }

  // ----- the queue -----

  function Later(a: Time, b: Time): Time {
    if a >= b then a else b
  }

  class Queue {
    const capacity: nat
    var tasks: seq<Entry>
    var next: nat

    predicate Valid()
      reads this
    {
      |tasks| <= capacity && Ordered(tasks) && Older(tasks, next)
    }

    constructor (capacity: nat)
      ensures Valid() && this.capacity == capacity && tasks == [] && next == 0
    {
      this.capacity := capacity;
      tasks, next := [], 0;
    }

    /** `TrySchedule`; `Schedule` does the same once there is room. */
    method TrySchedule(now: Time, delay: Time, task: Task) returns (ok: bool)
      requires Valid()
      modifies this
      ensures Valid() && ok == (|old(tasks)| < capacity)
      ensures tasks == if ok then Insert(old(tasks), Entry(now + delay, old(next), task)) else old(tasks)
    {
      hide Ordered;
      ok := |tasks| < capacity;
      if ok {
        var deadline := now + delay;
        var e := Entry(deadline, next, task);
        Inserted(tasks, e);
        tasks := Insert(tasks, e);
        next := next + 1;
        forall x | x in tasks
          ensures x.order < next
        {
          assert x in multiset(tasks);
        }
      }
    }

    /** `GetNextTask` with a queue that is not empty: the thread sleeps until the first deadline. */
    method GetNextTask(now: Time) returns (out: Taken)
      requires Valid() && tasks != []
      modifies this`tasks
      ensures Valid() && [out.entry] + tasks == old(tasks)
      ensures out.start == Later(now, out.entry.deadline)
      ensures forall e | e in tasks :: Before(out.entry, e)
    {
      var time := now;
      var nextTimerTime := tasks[0].deadline;
      while nextTimerTime > time
        invariant nextTimerTime == tasks[0].deadline && time <= (if nextTimerTime > now then nextTimerTime else now)
        invariant time >= now && tasks == old(tasks)
        decreases nextTimerTime - time
      {
        time := nextTimerTime;
        nextTimerTime := tasks[0].deadline;
      }
      out := Taken(tasks[0], time);
      tasks := tasks[1..];
    }

    /** The thread from some point on, when nothing more is scheduled: it runs the tasks up to the stop task. */
    method Run(now: Time, ghost k: nat) returns (taken: seq<Taken>)
      requires Valid() && k < |tasks| && tasks[k].task.Stop?
      requires forall i | 0 <= i < k :: !tasks[i].task.Stop?
      modifies this`tasks
      ensures Valid() && taken == Served(old(tasks)[..k + 1], now) && tasks == old(tasks)[k + 1..]
      ensures Entries(taken) == old(tasks)[..k + 1]
      ensures forall t | t in taken :: t.start >= t.entry.deadline && t.start >= now
    {
      hide Ordered, Older;
      taken := [];
      var stop, time := false, now;
      ghost var todo := tasks[..k + 1];
      ghost var n := 0;
      while !stop
        invariant Valid() && n <= k + 1 && stop == (n == k + 1)
        invariant tasks == old(tasks)[n..] && todo == old(tasks)[n..k + 1]
        invariant taken + Served(todo, time) == Served(old(tasks)[..k + 1], now)
        decreases |tasks|, !stop
      {
        assert todo[0] == tasks[0] && todo[1..] == old(tasks)[n + 1..k + 1];
        var work := GetNextTask(time);
        time := work.start;
        taken := taken + [work];
        stop := work.entry.task.Stop?;
        todo := todo[1..];
        n := n + 1;
      }
      assert todo == [];
      ServedInOrder(old(tasks)[..k + 1], now);
    }
  }

  /** One task after the other, each as soon as the one before it has been taken and its deadline has come. */
  function Served(tasks: seq<Entry>, now: Time): seq<Taken> {
    if tasks == [] then []
    else
      var start := Later(now, tasks[0].deadline);
      [Taken(tasks[0], start)] + Served(tasks[1..], start)
  }

  lemma {:induction false} ServedInOrder(tasks: seq<Entry>, now: Time)
    ensures Entries(Served(tasks, now)) == tasks
    ensures forall t | t in Served(tasks, now) :: t.start >= t.entry.deadline && t.start >= now
    decreases |tasks|
  {
    if tasks != [] {
      var start := Later(now, tasks[0].deadline);
      ServedInOrder(tasks[1..], start);
      assert Entries(Served(tasks, now)) == [tasks[0]] + Entries(Served(tasks[1..], start));
    }
  }

  function Entries(taken: seq<Taken>): seq<Entry> {
    seq(|taken|, i requires 0 <= i < |taken| => taken[i].entry)
  }

  // ----- schedulers and the thread -----

  /** A call of `Schedule` (blocking) or `TrySchedule` that has computed its deadline and waits for the lock. */
  datatype Call = Call(deadline: Time, task: Task, blocking: bool)

  /**
   `refused` are the calls of `TrySchedule` that found no room. `taken` are the tasks the thread has taken so far;
   while it is `running` the last of them is not finished.
   */
  datatype State = State(
    tasks: seq<Entry>,
    calls: seq<Call>,
    refused: seq<Call>,
    inserted: seq<Entry>,
    taken: seq<Taken>,
    running: bool,
    stop: bool,
    now: Time)

  datatype Step =
    | Tick(passed: nat)
    | Begin(delay: Time, task: Task, blocking: bool)
    | Enter(k: nat)
    | Take
    | Finish

  function Initial(now: Time): State {
    State([], [], [], [], [], false, false, now)
  }

  predicate Enabled(s: State, step: Step, capacity: nat) {
    match step
    case Tick(_) => true
    case Begin(_, _, _) => true
    case Enter(k) => k < |s.calls| && (s.calls[k].blocking ==> |s.tasks| < capacity)
    case Take => !s.running && !s.stop && s.tasks != [] && s.tasks[0].deadline <= s.now
    case Finish => s.running && s.taken != []
  }

  function Do(s: State, step: Step, capacity: nat): State
    requires Enabled(s, step, capacity)
  {
    match step
    case Tick(passed) => s.(now := s.now + passed)
    case Begin(delay, task, blocking) => s.(calls := s.calls + [Call(s.now + delay, task, blocking)])
    case Enter(k) =>
      var call, left := s.calls[k], s.calls[..k] + s.calls[k + 1..];
      if |s.tasks| >= capacity then s.(calls := left, refused := s.refused + [call])
      else
        var e := Entry(call.deadline, |s.inserted|, call.task);
        s.(calls := left, tasks := Insert(s.tasks, e), inserted := s.inserted + [e])
    case Take => s.(tasks := s.tasks[1..], taken := s.taken + [Taken(s.tasks[0], s.now)], running := true)
    case Finish => s.(running := false, stop := s.taken[|s.taken| - 1].entry.task.Stop?)
  }

  predicate IsRun(states: seq<State>, steps: seq<Step>, capacity: nat) {
    && |states| == |steps| + 1
    && states[0] == Initial(states[0].now)
    && forall k | 0 <= k < |steps| ::
      Enabled(states[k], steps[k], capacity) && states[k + 1] == Do(states[k], steps[k], capacity)
  }

  /** Every entry ever inserted is queued or has been taken, once. */
  predicate Good(s: State, capacity: nat) {
    && |s.tasks| <= capacity && Ordered(s.tasks)
    && (forall i | 0 <= i < |s.inserted| :: s.inserted[i].order == i)
    && multiset(s.inserted) == multiset(s.tasks) + multiset(Entries(s.taken))
    && (forall t | t in s.taken :: t.entry.deadline <= t.start <= s.now)
    && (s.running ==> s.taken != [])
    && (forall i | 0 <= i < |s.taken| && s.taken[i].entry.task.Stop? :: i == |s.taken| - 1 && (s.running || s.stop))
  }

  lemma OlderThanNext(s: State, capacity: nat)
    requires Good(s, capacity)
    ensures Older(s.tasks, |s.inserted|)
  {
    forall e | e in s.tasks
      ensures e.order < |s.inserted|
    {
      assert e in multiset(s.inserted);
    }
  }

  lemma EntriesAppend(taken: seq<Taken>, t: Taken)
    ensures Entries(taken + [t]) == Entries(taken) + [t.entry]
  {
  }

  lemma EnterKeeps(s: State, k: nat, capacity: nat)
    requires Good(s, capacity) && Enabled(s, Enter(k), capacity)
    ensures Good(Do(s, Enter(k), capacity), capacity)
  {
    hide Ordered, Insert;
    OlderThanNext(s, capacity);
    if |s.tasks| < capacity {
      Inserted(s.tasks, Entry(s.calls[k].deadline, |s.inserted|, s.calls[k].task));
    }
  }

  lemma TakeKeeps(s: State, capacity: nat)
    requires Good(s, capacity) && Enabled(s, Take, capacity)
    ensures Good(Do(s, Take, capacity), capacity)
  {
    EntriesAppend(s.taken, Taken(s.tasks[0], s.now));
    assert s.tasks == [s.tasks[0]] + s.tasks[1..];
    hide Entries;
  }

  lemma StepKeeps(s: State, step: Step, capacity: nat)
    requires Good(s, capacity) && Enabled(s, step, capacity)
    ensures Good(Do(s, step, capacity), capacity)
  {
    hide Ordered, Insert, Entries;
    match step
    case Enter(k) => EnterKeeps(s, k, capacity);
    case Take => TakeKeeps(s, capacity);
    case _ =>
  }

  /** In every run the queue stays within its capacity and no task is taken before its deadline. */
  lemma {:induction false} RunKeeps(states: seq<State>, steps: seq<Step>, capacity: nat, k: nat)
    requires IsRun(states, steps, capacity) && k < |states|
    ensures Good(states[k], capacity)
  {
    hide Good, Do;
    if k == 0 {
      InitialGood(states[0].now, capacity);
    } else {
      RunKeeps(states, steps, capacity, k - 1);
      StepKeeps(states[k - 1], steps[k - 1], capacity);
      assert states[(k - 1) + 1] == Do(states[k - 1], steps[k - 1], capacity);
    }
  }

  lemma InitialGood(now: Time, capacity: nat)
    ensures Good(Initial(now), capacity)
  {
  }

  lemma TakenIsLeast(states: seq<State>, steps: seq<Step>, capacity: nat, k: nat, e: Entry)
    requires IsRun(states, steps, capacity) && k < |steps| && steps[k] == Take && e in states[k].tasks
    ensures var taken := states[k + 1].taken[|states[k + 1].taken| - 1];
      && (e == taken.entry || Before(taken.entry, e)) && taken.entry.deadline <= taken.start
      && taken.entry.deadline <= e.deadline && (taken.entry.deadline == e.deadline ==> taken.entry.order <= e.order)
      && taken.start == states[k].now
  {
    RunKeeps(states, steps, capacity, k);
    assert states[k + 1] == Do(states[k], steps[k], capacity);
  }

  /** What has been taken stays on the record, in its order. */
  lemma {:induction false} TakenGrows(states: seq<State>, steps: seq<Step>, capacity: nat, i: nat, j: nat)
    requires IsRun(states, steps, capacity) && i <= j < |states|
    ensures states[i].taken <= states[j].taken && states[i].inserted <= states[j].inserted
  {
    if i < j {
      TakenGrows(states, steps, capacity, i, j - 1);
      assert states[(j - 1) + 1] == Do(states[j - 1], steps[j - 1], capacity);
    }
  }

  /** Once the stop task has been taken nothing else is. */
  lemma {:induction false} NothingAfterStop(states: seq<State>, steps: seq<Step>, capacity: nat, i: nat, j: nat)
    requires IsRun(states, steps, capacity) && i <= j < |states|
    requires exists t :: t in states[i].taken && t.entry.task.Stop?
    ensures states[j].taken == states[i].taken
  {
    if i < j {
      NothingAfterStop(states, steps, capacity, i, j - 1);
      RunKeeps(states, steps, capacity, j - 1);
      assert states[(j - 1) + 1] == Do(states[j - 1], steps[j - 1], capacity);
    }
  }

  // ----- nothing asked for is lost, and nothing comes before its time -----

  /** What a caller asks for: a task, and the time from which on it may run. */
  datatype Want = Want(deadline: Time, task: Task)

  /** What has been asked for by the first `k` steps of a run: the time of each call and its delay. */
  function Wanted(states: seq<State>, steps: seq<Step>, k: nat): seq<Want>
    requires k <= |steps| && k <= |states|
  {
    if k == 0 then []
    else
      match steps[k - 1]
      case Begin(delay, task, _) => Wanted(states, steps, k - 1) + [Want(states[k - 1].now + delay, task)]
      case _ => Wanted(states, steps, k - 1)
  }

  function OfCalls(calls: seq<Call>): seq<Want> {
    seq(|calls|, i requires 0 <= i < |calls| => Want(calls[i].deadline, calls[i].task))
  }

  function OfEntries(entries: seq<Entry>): seq<Want> {
    seq(|entries|, i requires 0 <= i < |entries| => Want(entries[i].deadline, entries[i].task))
  }

  /** What the callers that wait, those that were refused and the entries ever inserted stand for. */
  function Kept(s: State): multiset<Want> {
    multiset(OfCalls(s.calls)) + multiset(OfCalls(s.refused)) + multiset(OfEntries(s.inserted))
  }

  lemma CallAppended(calls: seq<Call>, call: Call)
    ensures OfCalls(calls + [call]) == OfCalls(calls) + [Want(call.deadline, call.task)]
  {
  }

  lemma EntryAppended(entries: seq<Entry>, e: Entry)
    ensures OfEntries(entries + [e]) == OfEntries(entries) + [Want(e.deadline, e.task)]
  {
  }

  lemma CallGone(calls: seq<Call>, k: nat)
    requires k < |calls|
    ensures multiset(OfCalls(calls))
         == multiset(OfCalls(calls[..k] + calls[k + 1..])) + multiset{Want(calls[k].deadline, calls[k].task)}
  {
    var all := OfCalls(calls);
    assert all == all[..k] + [all[k]] + all[k + 1..];
    assert OfCalls(calls[..k] + calls[k + 1..]) == all[..k] + all[k + 1..];
  }

  lemma StepKeepsWants(s: State, step: Step, capacity: nat)
    requires Enabled(s, step, capacity)
    ensures Kept(Do(s, step, capacity))
         == Kept(s) + if step.Begin? then multiset{Want(s.now + step.delay, step.task)} else multiset{}
  {
    hide Insert, OfCalls, OfEntries;
    match step
    case Begin(delay, task, blocking) => CallAppended(s.calls, Call(s.now + delay, task, blocking));
    case Enter(k) => EnterKeepsWants(s, k, capacity);
    case _ =>
  }

  lemma EnterKeepsWants(s: State, k: nat, capacity: nat)
    requires Enabled(s, Enter(k), capacity)
    ensures Kept(Do(s, Enter(k), capacity)) == Kept(s)
  {
    hide Insert, OfCalls, OfEntries;
    var call, t := s.calls[k], Do(s, Enter(k), capacity);
    var w := Want(call.deadline, call.task);
    CallGone(s.calls, k);
    if |s.tasks| >= capacity {
      CallAppended(s.refused, call);
      assert multiset(OfCalls(t.refused)) == multiset(OfCalls(s.refused)) + multiset{w};
    } else {
      EntryAppended(s.inserted, Entry(call.deadline, |s.inserted|, call.task));
      assert multiset(OfEntries(t.inserted)) == multiset(OfEntries(s.inserted)) + multiset{w};
    }
  }

  /** In every run each call is still waiting, was refused for want of room, or its task has been inserted, once. */
  lemma {:induction false} NothingForgotten(states: seq<State>, steps: seq<Step>, capacity: nat, k: nat)
    requires IsRun(states, steps, capacity) && k < |states|
    ensures multiset(Wanted(states, steps, k)) == Kept(states[k])
  {
    hide Do, Kept;
    if k == 0 {
      NothingKept(states[0]);
    } else {
      NothingForgotten(states, steps, capacity, k - 1);
      StepKeepsWants(states[k - 1], steps[k - 1], capacity);
      assert states[(k - 1) + 1] == Do(states[k - 1], steps[k - 1], capacity);
    }
  }

  lemma NothingKept(s: State)
    requires s == Initial(s.now)
    ensures Kept(s) == multiset([])
  {
  }

  /** Only a call that does not block is refused, and just if the queue is full; otherwise its task is queued. */
  lemma RefusedWhenFull(s: State, k: nat, capacity: nat)
    requires Good(s, capacity) && Enabled(s, Enter(k), capacity)
    ensures var t := Do(s, Enter(k), capacity);
      && |t.calls| == |s.calls| - 1
      && (t.refused != s.refused <==> |s.tasks| == capacity)
      && (t.refused != s.refused ==> t.refused == s.refused + [s.calls[k]] && !s.calls[k].blocking && t.tasks == s.tasks)
      && (t.refused == s.refused ==>
            exists e: Entry :: e.deadline == s.calls[k].deadline && e.task == s.calls[k].task
                        && multiset(t.tasks) == multiset(s.tasks) + multiset{e})
  {
    hide Insert, Ordered;
    assert |s.refused + [s.calls[k]]| != |s.refused|;
    if |s.tasks| < capacity {
      var e := Entry(s.calls[k].deadline, |s.inserted|, s.calls[k].task);
      InsertedElements(s.tasks, e);
      assert multiset(Do(s, Enter(k), capacity).tasks) == multiset(s.tasks) + multiset{e};
    }
  }

  lemma WantedWasAsked(states: seq<State>, steps: seq<Step>, k: nat, w: Want)
    requires k <= |steps| && k <= |states| && w in Wanted(states, steps, k)
    ensures exists j :: 0 <= j < k && steps[j].Begin? && w == Want(states[j].now + steps[j].delay, steps[j].task)
  {
    if steps[k - 1].Begin? && w == Want(states[k - 1].now + steps[k - 1].delay, steps[k - 1].task) {
    } else {
      WantedWasAsked(states, steps, k - 1, w);
    }
  }

  /** Every task taken was asked for in some call, and is not taken before the delay given there is over. */
  lemma TakenWasAsked(states: seq<State>, steps: seq<Step>, capacity: nat, k: nat, t: Taken)
    requires IsRun(states, steps, capacity) && k < |states| && t in states[k].taken
    ensures exists j :: 0 <= j < k && steps[j].Begin? && steps[j].task == t.entry.task
                        && states[j].now + steps[j].delay == t.entry.deadline <= t.start
  {
    hide Kept, Ordered, Do;
    RunKeeps(states, steps, capacity, k);
    NothingForgotten(states, steps, capacity, k);
    TakenIsKept(states[k], capacity, t);
    WantedWasAsked(states, steps, k, Want(t.entry.deadline, t.entry.task));
  }

  lemma TakenIsKept(s: State, capacity: nat, t: Taken)
    requires Good(s, capacity) && t in s.taken
    ensures Kept(s)[Want(t.entry.deadline, t.entry.task)] > 0
  {
    hide Ordered;
    var i :| 0 <= i < |s.taken| && s.taken[i] == t;
    assert Entries(s.taken)[i] == t.entry;
    assert t.entry in multiset(s.inserted);
    var j :| 0 <= j < |s.inserted| && s.inserted[j] == t.entry;
    assert OfEntries(s.inserted)[j] == Want(t.entry.deadline, t.entry.task);
  }

  /** A task that was asked for once does not run before its delay is over. */
  lemma NotBeforeItsTime(states: seq<State>, steps: seq<Step>, capacity: nat, i: nat, k: nat, t: Taken)
    requires IsRun(states, steps, capacity) && i < |steps| && k < |states| && t in states[k].taken
    requires steps[i].Begin? && steps[i].task == t.entry.task
    requires forall j | 0 <= j < |steps| && steps[j].Begin? && steps[j].task == t.entry.task :: j == i
    ensures t.start >= states[i].now + steps[i].delay
  {
    TakenWasAsked(states, steps, capacity, k, t);
  }

  /** Callers come at any time; only a call of `Schedule` waits, and just while the queue is full. */
  lemma NobodyIsShutOut(s: State, delay: Time, task: Task, blocking: bool, k: nat, capacity: nat)
    requires Good(s, capacity)
    ensures Enabled(s, Begin(delay, task, blocking), capacity)
    ensures Enabled(Do(s, Begin(delay, task, blocking), capacity), Enter(|s.calls|), capacity)
       <==> !blocking || |s.tasks| < capacity
    ensures k < |s.calls| ==> (Enabled(s, Enter(k), capacity) <==> !s.calls[k].blocking || |s.tasks| < capacity)
  {
  }

  /** The thread takes the first task at its deadline, or at once if that is past, and then goes on to the next. */
  lemma ServesFirst(s: State, capacity: nat)
    requires Good(s, capacity) && !s.running && !s.stop && s.tasks != []
    ensures var wait := if s.tasks[0].deadline > s.now then s.tasks[0].deadline - s.now else 0;
      var due := Do(s, Tick(wait), capacity);
      && Enabled(due, Take, capacity)
      && Do(due, Take, capacity).taken == s.taken + [Taken(s.tasks[0], s.now + wait)]
      && Do(due, Take, capacity).tasks == s.tasks[1..]
      && Enabled(Do(due, Take, capacity), Finish, capacity)
      && var done := Do(Do(due, Take, capacity), Finish, capacity);
        !done.running && (done.stop <==> s.tasks[0].task.Stop?)
  {
  }

  lemma InsertedOnce(s: State, capacity: nat, e: Entry)
    requires Good(s, capacity) && e in s.inserted
    ensures multiset(s.tasks)[e] + multiset(Entries(s.taken))[e] == 1
  {
    OnceInLog(s.inserted, e);
  }

  lemma OnceInLog(log: seq<Entry>, e: Entry)
    requires e in log && forall i | 0 <= i < |log| :: log[i].order == i
    ensures multiset(log)[e] == 1
  {
    var k := e.order;
    assert log == log[..k] + [log[k]] + log[k + 1..];
    assert e !in log[..k] && e !in log[k + 1..];
  }

  /** Shutdown: when the stop task is taken, every task inserted by then and ordered before it has run, once. */
  lemma ShutdownRuns(states: seq<State>, steps: seq<Step>, capacity: nat, k: nat, j: nat, e: Entry)
    requires IsRun(states, steps, capacity) && k < j < |states| && steps[k] == Take
    requires states[k].tasks[0].task.Stop?
    requires e in states[k].inserted && Before(e, states[k].tasks[0])
    ensures multiset(Entries(states[j].taken))[e] == 1
    ensures e in Entries(states[k].taken)
  {
    hide Good, Do, Entries;
    RunKeeps(states, steps, capacity, k);
    RunKeeps(states, steps, capacity, j);
    assert Enabled(states[k], steps[k], capacity);
    TakenGrows(states, steps, capacity, k, j);
    NotQueued(states[k], capacity, e);
    InsertedOnce(states[k], capacity, e);
    InsertedOnce(states[j], capacity, e);
    PrefixCounts(states[k].taken, states[j].taken, e);
  }

  lemma NotQueued(s: State, capacity: nat, e: Entry)
    requires Good(s, capacity) && s.tasks != [] && Before(e, s.tasks[0])
    ensures multiset(s.tasks)[e] == 0
  {
  }

  lemma PrefixCounts(a: seq<Taken>, b: seq<Taken>, e: Entry)
    requires a <= b
    ensures multiset(Entries(a))[e] <= multiset(Entries(b))[e]
  {
    assert b == a + b[|a|..];
    assert Entries(b) == Entries(a) + Entries(b[|a|..]);
  }
}
