/**
 Coroutine tasks that await each other, from the creation of a root task to the destruction of its last frame.
 Memory is explicit: a frame that is not in `frames` has been freed, and touching it leads to `Crash`.
 */
module Tasks {
  import opened Text

  type Id = nat

  const ROOT: Id := 0

  datatype Phase = Created | Running | Suspended | Done

  /** A coroutine frame: its promise, and the handle of the task it awaits. */
  datatype Frame = Frame(
    phase: Phase,
    canceled: bool,
    parentCanceled: Option<Id>,
    parentHandle: Option<Id>,
    inner: Option<Id>)

  /** What the thread does next. */
  datatype Control =
    | Idle                 // back in the event loop
    | Start(frame: Id)     // leaving the initial suspend
    | User(frame: Id)      // in the body of a task
    | AfterRun(frame: Id)  // `Run` of the awaited task has returned
    | Resume(frame: Id)    // in `await_resume`
    | Final(frame: Id)     // in the final suspend
    | Crash

  /**
   `runs` are the frames inside `Run`, innermost last. `pending` is the frame to be resumed from outside.
   `segments` counts how often the body of a task has been entered.
   */
  datatype State = State(
    frames: map<Id, Frame>,
    control: Control,
    runs: seq<Id>,
    pending: Option<Id>,
    owner: Option<Id>,
    destroyed: multiset<Id>,
    next: Id,
    segments: nat)

  datatype Step =
    | RunRoot        // the owner runs the task
    | DropOwner      // the owner's handle dies
    | AwaitOutside   // the body awaits something that is not ready
    | AwaitReady     // the body awaits something that is ready
    | AwaitTask      // the body awaits a new task
    | Finish         // the body returns or throws
    | Fire           // the pending resumption arrives
    | Advance        // the machinery takes its next step

  function NewFrame(parentCanceled: Option<Id>): Frame {
    Frame(Created, false, parentCanceled, None, None)
  }

  /** A task has been created and its owner holds the handle. */
  function Initial(): State {
    State(map[ROOT := NewFrame(None)], Idle, [], None, Some(ROOT), multiset{}, ROOT + 1, 0)
  }

  function Set(s: State, id: Id, frame: Frame): State {
    s.(frames := s.frames[id := frame])
  }

  function Free(s: State, id: Id): State {
    if id !in s.frames then s.(control := Crash)
    else s.(frames := s.frames - {id}, destroyed := s.destroyed + multiset{id})
  }

  /** The destructor of a handle. */
  function DropHandle(s: State, handle: Id): State {
    if handle !in s.frames then s.(control := Crash)
    else if s.frames[handle].phase == Done then Free(s, handle)
    else Set(s, handle, s.frames[handle].(canceled := true))
  }

  /** Whether the flags a frame looks at are readable, and set. */
  predicate Readable(s: State, id: Id) {
    && id in s.frames
    && (s.frames[id].canceled || s.frames[id].parentCanceled.None? || s.frames[id].parentCanceled.value in s.frames)
  }

  predicate IsCanceled(s: State, id: Id)
    requires Readable(s, id)
  {
    s.frames[id].canceled || (s.frames[id].parentCanceled.Some? && s.frames[s.frames[id].parentCanceled.value].canceled)
  }

  /** Control returns to whoever called `resume`. */
  function Return(s: State): State {
    if s.runs == [] then s.(control := Idle)
    else s.(control := AfterRun(s.runs[|s.runs| - 1]), runs := s.runs[..|s.runs| - 1])
  }

  /** `await_resume` of the cancelling awaiters: throw, or let the body go on. */
  function Check(s: State, id: Id): State {
    if !Readable(s, id) then s.(control := Crash)
    else if IsCanceled(s, id) then s.(control := Final(id))
    else s.(control := User(id), segments := s.segments + 1)
  }

  function DoStart(s: State, id: Id): State {
    if id !in s.frames || s.frames[id].phase != Created then s.(control := Crash)
    else Check(Set(s, id, s.frames[id].(phase := Running)), id)
  }

  /** The awaiter of a task asks whether the task is done; if not, the frame suspends and waits for it. */
  function DoAfterRun(s: State, id: Id): State {
    if id !in s.frames || s.frames[id].inner.None? || s.frames[id].inner.value !in s.frames then s.(control := Crash)
    else
      var inner := s.frames[id].inner.value;
      if s.frames[inner].phase == Done then s.(control := Resume(id))
      else
        var waiting := Set(s, inner, s.frames[inner].(parentHandle := Some(id)));
        if id !in waiting.frames then s.(control := Crash)
        else Return(Set(waiting, id, waiting.frames[id].(phase := Suspended)))
  }

  /** The flags decide how the await ends; its handle of the awaited task dies either way. */
  function DoResume(s: State, id: Id): State {
    var checked := Check(s, id);
    if checked.control == Crash || s.frames[id].inner.None? then checked
    else
      DropHandle(Set(checked, id, s.frames[id].(inner := None)), s.frames[id].inner.value)
  }

  function DoFinal(s: State, id: Id): State {
    if id !in s.frames then s.(control := Crash)
    else if s.frames[id].canceled then Return(Free(s, id))
    else
      var done := Set(s, id, s.frames[id].(phase := Done));
      if s.frames[id].parentHandle.None? then Return(done) else Resumed(done, s.frames[id].parentHandle.value)
  }

  /** Resuming a handle is defined for suspended frames only. */
  function Resumed(s: State, id: Id): State {
    if id !in s.frames || s.frames[id].phase != Suspended then s.(control := Crash)
    else Set(s, id, s.frames[id].(phase := Running)).(control := Resume(id))
  }

  function DoAdvance(s: State): State {
    match s.control
    case Start(id) => DoStart(s, id)
    case AfterRun(id) => DoAfterRun(s, id)
    case Resume(id) => DoResume(s, id)
    case Final(id) => DoFinal(s, id)
    case _ => s
  }

  predicate Enabled(s: State, step: Step) {
    match step
    case RunRoot => s.control.Idle? && s.owner.Some? && s.owner.value in s.frames && s.frames[s.owner.value].phase == Created
    case DropOwner => (s.control.Idle? || s.control.User?) && s.owner.Some?
    case Fire => s.control.Idle? && s.pending.Some?
    case Advance => s.control.Start? || s.control.AfterRun? || s.control.Resume? || s.control.Final?
    case _ => s.control.User? && s.control.frame in s.frames
  }

  function Do(s: State, step: Step): State
    requires Enabled(s, step)
  {
    match step
    case RunRoot => s.(control := Start(s.owner.value))
    case DropOwner => DropHandle(s.(owner := None), s.owner.value)
    case Fire => Resumed(s.(pending := None), s.pending.value)
    case Advance => DoAdvance(s)
    case AwaitOutside =>
      var id := s.control.frame;
      Return(Set(s, id, s.frames[id].(phase := Suspended)).(pending := Some(id)))
    case AwaitReady => s.(control := Resume(s.control.frame))
    case AwaitTask =>
      var id := s.control.frame;
      var flag := if s.frames[id].parentCanceled.Some? then s.frames[id].parentCanceled else Some(id);
      var waiting := Set(s, id, s.frames[id].(inner := Some(s.next)));
      Set(waiting, s.next, NewFrame(flag)).(control := Start(s.next), runs := s.runs + [id], next := s.next + 1)
    case Finish => s.(control := Final(s.control.frame))
  }

  /** A run of the system. */
  predicate IsRun(states: seq<State>, steps: seq<Step>) {
    && |states| == |steps| + 1
    && states[0] == Initial()
    && forall k | 0 <= k < |steps| :: Enabled(states[k], steps[k]) && states[k + 1] == Do(states[k], steps[k])
  }

  // ----- the invariant: the live frames form a chain from the root to the innermost task -----

  /** The root shares its flag with all other frames; it is set once the owner's handle has died. */
  predicate Flagged(s: State) {
    && (forall id | id in s.frames :: id < s.next
          && (id != ROOT ==> ROOT in s.frames && !s.frames[id].canceled && s.frames[id].parentCanceled == Some(ROOT)))
    && (ROOT in s.frames ==>
          s.frames[ROOT].parentCanceled.None? && s.frames[ROOT].parentHandle.None?
          && s.frames[ROOT].canceled == s.owner.None?)
    && (s.owner.Some? ==> s.owner.value == ROOT && ROOT in s.frames)
    && 0 < s.next
  }

  predicate Linked(s: State, chain: seq<Id>) {
    && (forall i, j | 0 <= i < j < |chain| :: chain[i] < chain[j])
    && (forall k | 0 <= k < |chain| :: chain[k] in s.frames)
    && (forall i, j | 0 <= i < j <= i + 1 && j < |chain| :: s.frames[chain[i]].inner == Some(chain[j]))
    && (chain != [] ==> chain[0] == ROOT && s.frames[chain[|chain| - 1]].inner.None?)
  }

  predicate Covered(s: State, chain: seq<Id>) {
    forall id | id in s.frames :: id in chain
  }

  /** Each frame in a stretch of the chain waits for the next one. */
  predicate Waits(s: State, chain: seq<Id>, from: int, to: int)
    requires Linked(s, chain)
  {
    && (forall i | 0 <= i < |chain| && from <= i < to :: s.frames[chain[i]].phase == Suspended)
    && (forall i, j | 0 <= i < j <= i + 1 && j < |chain| && from <= i < to ::
          s.frames[chain[j]].parentHandle == Some(chain[i]))
  }

  /** Each frame in a stretch of the chain is inside the `Run` of the next one. */
  predicate Runs(s: State, chain: seq<Id>, from: int, to: int)
    requires Linked(s, chain)
  {
    && (forall i | 0 <= i < |chain| && from <= i < to :: s.frames[chain[i]].phase == Running)
    && (forall j | 0 < j < |chain| && from < j <= to :: s.frames[chain[j]].parentHandle.None?)
  }

  /** The thread is at a frame of the chain; of the frames above it, the last few are inside `Run`, the others wait. */
  predicate Stands(s: State, chain: seq<Id>, cur: nat)
    requires Linked(s, chain)
  {
    && cur < |chain| && |s.runs| <= cur
    && (forall k | 0 <= k < |s.runs| :: s.runs[k] == chain[cur - |s.runs| + k])
    && Waits(s, chain, 0, cur - |s.runs|)
    && Runs(s, chain, cur - |s.runs|, cur)
  }

  /** From a frame on, everything is suspended and the last frame will be resumed from outside. */
  predicate Parked(s: State, chain: seq<Id>, from: nat)
    requires Linked(s, chain)
  {
    && from < |chain| && Waits(s, chain, from, |chain| - 1)
    && s.frames[chain[|chain| - 1]].phase == Suspended && s.pending == Some(chain[|chain| - 1])
  }

  predicate Alone(s: State, chain: seq<Id>, phase: Phase)
    requires Linked(s, chain)
  {
    |chain| == 1 && s.frames[ROOT].phase == phase && s.pending.None?
  }

  /** The awaited task behind a frame has finished. */
  predicate InnerDone(s: State, chain: seq<Id>, cur: nat)
    requires Linked(s, chain)
  {
    cur + 2 == |chain| && s.frames[chain[cur + 1]].phase == Done && s.pending.None?
  }

  /** `cur` is where the thread stands in the chain. */
  predicate Placed(s: State, chain: seq<Id>, cur: nat)
    requires Linked(s, chain)
  {
    var n := |chain|;
    match s.control
    case Idle =>
      && s.runs == []
      && (n > 0 ==> Alone(s, chain, Created) || (Alone(s, chain, Done) && s.owner.Some?) || Parked(s, chain, 0))
      && (n == 0 ==> s.pending.None?)
    case Start(id) => AtEnd(s, chain, cur, id, Created)
    case User(id) => AtEnd(s, chain, cur, id, Running)
    case Final(id) => AtEnd(s, chain, cur, id, Running)
    case AfterRun(id) =>
      cur < n && id == chain[cur] && Stands(s, chain, cur) && Runs(s, chain, cur, cur + 1)
      && cur + 1 < n && s.frames[id].phase == Running
      && (InnerDone(s, chain, cur) || Parked(s, chain, cur + 1))
    case Resume(id) =>
      AtEnd(s, chain, cur, id, Running)
      || (cur < n && id == chain[cur] && Stands(s, chain, cur) && s.frames[id].phase == Running && InnerDone(s, chain, cur))
    case Crash => false
  }

  predicate AtEnd(s: State, chain: seq<Id>, cur: nat, id: Id, phase: Phase)
    requires Linked(s, chain)
  {
    cur + 1 == |chain| && id == chain[cur] && Stands(s, chain, cur) && s.frames[id].phase == phase && s.pending.None?
  }

  /** Every frame ever created is either live or has been destroyed once. */
  ghost predicate Conserved(s: State) {
    forall id: Id :: s.destroyed[id] + (if id in s.frames then 1 else 0) == if id < s.next then 1 else 0
  }

  predicate Shaped(s: State, chain: seq<Id>, cur: nat) {
    Flagged(s) && Linked(s, chain) && Placed(s, chain, cur)
  }

  // ----- what each step does to the chain -----

  lemma ShapedInitially()
    ensures Shaped(Initial(), [ROOT], 0) && Covered(Initial(), [ROOT]) && Conserved(Initial())
  {
  }

  /** Only one frame changes, and not the task it awaits. */
  predicate Touches(s: State, t: State, id: Id) {
    && t.frames.Keys == s.frames.Keys
    && (forall other | other in s.frames :: t.frames[other].inner == s.frames[other].inner)
    && (forall other | other in s.frames && other != id :: t.frames[other] == s.frames[other])
  }

  lemma TouchLinks(s: State, t: State, chain: seq<Id>, c: nat)
    requires Linked(s, chain) && c < |chain| && Touches(s, t, chain[c])
    ensures Linked(t, chain) && (Covered(s, chain) ==> Covered(t, chain))
  {
  }

  /** A stretch of the chain is not disturbed by a change outside of it, or by one that keeps what it is about. */
  lemma TouchStretch(s: State, t: State, chain: seq<Id>, c: nat, from: int, to: int)
    requires Linked(s, chain) && Linked(t, chain) && c < |chain| && Touches(s, t, chain[c])
    requires t.frames[chain[c]].phase == s.frames[chain[c]].phase || !(from <= c < to)
    requires t.frames[chain[c]].parentHandle == s.frames[chain[c]].parentHandle || !(from < c <= to)
    ensures Waits(s, chain, from, to) ==> Waits(t, chain, from, to)
    ensures Runs(s, chain, from, to) ==> Runs(t, chain, from, to)
  {
  }

  /** A change of the phase of the frame the thread stands at. */
  lemma TouchStands(s: State, t: State, chain: seq<Id>, cur: nat)
    requires Linked(s, chain) && Stands(s, chain, cur) && Touches(s, t, chain[cur]) && t.runs == s.runs
    requires t.frames[chain[cur]].parentHandle == s.frames[chain[cur]].parentHandle
    ensures Linked(t, chain) && Stands(t, chain, cur)
  {
    hide Linked, Waits, Runs, Touches;
    TouchLinks(s, t, chain, cur);
    TouchStretch(s, t, chain, cur, 0, cur - |s.runs|);
    TouchStretch(s, t, chain, cur, cur - |s.runs|, cur);
  }

  /** Only where the thread is changes. */
  lemma SameFrames(s: State, t: State, chain: seq<Id>)
    requires Linked(s, chain) && t.frames == s.frames
    ensures Linked(t, chain)
    ensures forall from, to :: Waits(s, chain, from, to) ==> Waits(t, chain, from, to)
    ensures forall from, to :: Runs(s, chain, from, to) ==> Runs(t, chain, from, to)
  {
  }

  /** A stretch splits, and two of them meet. */
  lemma Joins(s: State, chain: seq<Id>, from: int, mid: int, to: int)
    requires Linked(s, chain) && from <= mid <= to
    ensures Waits(s, chain, from, mid) && Waits(s, chain, mid, to) <==> Waits(s, chain, from, to)
    ensures Runs(s, chain, from, mid) && Runs(s, chain, mid, to) <==> Runs(s, chain, from, to)
  {
  }

  lemma OneWaits(s: State, chain: seq<Id>, k: nat)
    requires Linked(s, chain) && k + 1 < |chain|
    ensures chain[k] in s.frames && chain[k + 1] in s.frames
    ensures Waits(s, chain, k, k + 1)
       <==> s.frames[chain[k]].phase == Suspended && s.frames[chain[k + 1]].parentHandle == Some(chain[k])
    ensures Runs(s, chain, k, k + 1)
       <==> s.frames[chain[k]].phase == Running && s.frames[chain[k + 1]].parentHandle.None?
    ensures s.frames[chain[k]].inner == Some(chain[k + 1])
  {
  }

  lemma Apart(s: State, chain: seq<Id>)
    requires Linked(s, chain)
    ensures forall i, j | 0 <= i < j < |chain| :: chain[i] != chain[j]
  {
  }

  lemma EmptyStretch(s: State, chain: seq<Id>, from: int, to: int)
    requires Linked(s, chain) && from >= to
    ensures Waits(s, chain, from, to) && Runs(s, chain, from, to)
  {
  }

  lemma Ends(s: State, chain: seq<Id>)
    requires Linked(s, chain) && chain != []
    ensures chain[|chain| - 1] in s.frames && s.frames[chain[|chain| - 1]].inner.None?
    ensures chain[0] == ROOT && ROOT in s.frames
    ensures forall k | 0 <= k < |chain| :: chain[k] in s.frames && (k > 0 ==> chain[k] != ROOT)
  {
  }

  /** A new task at the end of the chain. */
  predicate Extends(s: State, t: State, chain: seq<Id>, id: Id) {
    && Linked(s, chain) && chain != [] && id !in s.frames
    && (forall k | 0 <= k < |chain| :: chain[k] < id)
    && t.frames.Keys == s.frames.Keys + {id}
    && (forall k | 0 <= k < |chain| - 1 :: t.frames[chain[k]] == s.frames[chain[k]])
    && var last := chain[|chain| - 1];
      t.frames[last] == s.frames[last].(inner := Some(id)) && t.frames[id].inner.None?
  }

  lemma ExtendsLinks(s: State, t: State, chain: seq<Id>, id: Id)
    requires Extends(s, t, chain, id)
    ensures Linked(t, chain + [id]) && (Covered(s, chain) ==> Covered(t, chain + [id]))
  {
    var longer := chain + [id];
    assert forall k | 0 <= k < |chain| :: longer[k] == chain[k];
    forall i, j | 0 <= i < j <= i + 1 && j < |longer|
      ensures t.frames[longer[i]].inner == Some(longer[j])
    {
      if j < |chain| {
        assert s.frames[chain[i]].inner == Some(chain[j]);
      }
    }
  }

  lemma ExtendsStretch(s: State, t: State, chain: seq<Id>, id: Id, from: int, to: int)
    requires Extends(s, t, chain, id) && Linked(t, chain + [id]) && to <= |chain| - 1
    ensures Waits(s, chain, from, to) ==> Waits(t, chain + [id], from, to)
    ensures Runs(s, chain, from, to) ==> Runs(t, chain + [id], from, to)
  {
    hide Linked;
    assert forall k | 0 <= k < |chain| :: (chain + [id])[k] == chain[k];
  }

  /** The last task of the chain is gone. */
  predicate Loses(s: State, t: State, chain: seq<Id>) {
    && Linked(s, chain) && |chain| > 1
    && t.frames.Keys == s.frames.Keys - {chain[|chain| - 1]}
    && (forall k | 0 <= k < |chain| - 2 :: t.frames[chain[k]] == s.frames[chain[k]])
    && var id := chain[|chain| - 2];
      t.frames[id] == s.frames[id].(inner := None)
  }

  lemma LosesLinks(s: State, t: State, chain: seq<Id>)
    requires Loses(s, t, chain)
    ensures Linked(t, chain[..|chain| - 1]) && (Covered(s, chain) ==> Covered(t, chain[..|chain| - 1]))
  {
    assert chain == chain[..|chain| - 1] + [chain[|chain| - 1]];
  }

  lemma LosesStretch(s: State, t: State, chain: seq<Id>, from: int, to: int)
    requires Loses(s, t, chain) && Linked(t, chain[..|chain| - 1]) && to <= |chain| - 2
    ensures Waits(s, chain, from, to) ==> Waits(t, chain[..|chain| - 1], from, to)
    ensures Runs(s, chain, from, to) ==> Runs(t, chain[..|chain| - 1], from, to)
  {
    hide Linked;
  }

  // ----- what each step does to the chain -----

  /** Control returns from a suspended frame. */
  lemma ReturnsParked(s: State, chain: seq<Id>, cur: nat)
    requires Flagged(s) && Linked(s, chain) && Stands(s, chain, cur) && Parked(s, chain, cur)
    ensures Shaped(Return(s), chain, if cur == 0 then 0 else cur - 1)
  {
    hide Linked, Waits, Runs;
    var t := Return(s);
    SameFrames(s, t, chain);
    Ends(s, chain);
    var m := |s.runs|;
    if m > 0 {
      assert chain[cur - 1] == s.runs[m - 1];
      Joins(t, chain, cur - m, cur - 1, cur);
      OneWaits(t, chain, cur - 1);
    } else {
      Joins(t, chain, 0, cur, |chain| - 1);
    }
  }

  lemma Starts(s: State, chain: seq<Id>, cur: nat)
    requires Shaped(s, chain, cur) && s.control.Start?
    ensures Shaped(DoAdvance(s), chain, cur)
  {
    hide Linked, Waits, Runs, Stands;
    Ends(s, chain);
    TouchStands(s, DoAdvance(s), chain, cur);
  }

  lemma HandleLeft(s: State, t: State, chain: seq<Id>, cur: nat)
    requires Linked(s, chain) && cur + 1 < |chain| && Stands(s, chain, cur) && Parked(s, chain, cur + 1)
    requires chain[cur + 1] in s.frames
    requires t == Set(s, chain[cur + 1], s.frames[chain[cur + 1]].(parentHandle := Some(chain[cur])))
    ensures Linked(t, chain) && Stands(t, chain, cur) && Parked(t, chain, cur + 1)
    ensures t.frames[chain[cur + 1]].parentHandle == Some(chain[cur])
  {
    hide Linked, Waits, Runs;
    Ends(s, chain);
    Apart(s, chain);
    TouchLinks(s, t, chain, cur + 1);
    TouchStretch(s, t, chain, cur + 1, 0, cur - |s.runs|);
    TouchStretch(s, t, chain, cur + 1, cur - |s.runs|, cur);
    TouchStretch(s, t, chain, cur + 1, cur + 1, |chain| - 1);
  }

  lemma CallerSuspended(s: State, t: State, chain: seq<Id>, cur: nat)
    requires Linked(s, chain) && cur + 1 < |chain| && Stands(s, chain, cur) && Parked(s, chain, cur + 1)
    requires chain[cur] in s.frames && t == Set(s, chain[cur], s.frames[chain[cur]].(phase := Suspended))
    requires chain[cur + 1] in s.frames && s.frames[chain[cur + 1]].parentHandle == Some(chain[cur])
    ensures Linked(t, chain) && Stands(t, chain, cur) && Parked(t, chain, cur)
  {
    hide Linked, Waits, Runs;
    Ends(s, chain);
    Apart(s, chain);
    TouchLinks(s, t, chain, cur);
    TouchStretch(s, t, chain, cur, 0, cur - |s.runs|);
    TouchStretch(s, t, chain, cur, cur - |s.runs|, cur);
    TouchStretch(s, t, chain, cur, cur + 1, |chain| - 1);
    OneWaits(t, chain, cur);
    Joins(t, chain, cur, cur + 1, |chain| - 1);
  }

  /** The awaited task is done, or its caller suspends. */
  lemma Suspends(s: State, chain: seq<Id>, cur: nat)
    requires Shaped(s, chain, cur) && s.control.AfterRun?
    ensures Shaped(DoAdvance(s), chain, if InnerDone(s, chain, cur) || cur == 0 then cur else cur - 1)
  {
    hide Linked, Waits, Runs, Parked;
    Ends(s, chain);
    OneWaits(s, chain, cur);
    if InnerDone(s, chain, cur) {
      SameFrames(s, DoAdvance(s), chain);
    } else {
      InnerNotDone(s, chain, cur);
      var id, inner := chain[cur], chain[cur + 1];
      var waiting := Set(s, inner, s.frames[inner].(parentHandle := Some(id)));
      var t := Set(waiting, id, waiting.frames[id].(phase := Suspended));
      HandleLeft(s, waiting, chain, cur);
      CallerSuspended(waiting, t, chain, cur);
      ReturnsParked(t, chain, cur);
    }
  }

  lemma InnerNotDone(s: State, chain: seq<Id>, cur: nat)
    requires Linked(s, chain) && cur + 1 < |chain| && Parked(s, chain, cur + 1)
    ensures s.frames[chain[cur + 1]].phase == Suspended
    ensures chain[cur] != chain[cur + 1] && chain[cur + 1] != ROOT
  {
  }

  lemma FreeLoses(s: State, t: State, chain: seq<Id>)
    requires Linked(s, chain) && |chain| > 1
    requires var id := chain[|chain| - 2];
      id in s.frames && t.frames == s.frames[id := s.frames[id].(inner := None)] - {chain[|chain| - 1]}
    ensures Loses(s, t, chain)
  {
  }

  /** Leaving an await frees the finished task, if there was one. */
  lemma Resumes(s: State, chain: seq<Id>, cur: nat)
    requires Shaped(s, chain, cur) && s.control.Resume?
    ensures Shaped(DoAdvance(s), chain[..cur + 1], cur)
    ensures Covered(s, chain) ==> Covered(DoAdvance(s), chain[..cur + 1])
    ensures s.owner.None? ==> DoAdvance(s).control.Final?
  {
    hide Flagged, Linked, Waits, Runs, Stands;
    Ends(s, chain);
    FlagsReadable(s, chain[cur]);
    var t := DoAdvance(s);
    if s.frames[chain[cur]].inner.None? {
      StandsOn(s, t, chain, cur);
      FlagsSame(s, t);
    } else {
      FreesInner(s, t, chain, cur);
      Ends(t, chain[..cur + 1]);
      FlagsFreed(s, t, chain[cur], chain[cur + 1]);
    }
  }

  lemma FlagsReadable(s: State, id: Id)
    requires Flagged(s) && id in s.frames
    ensures Readable(s, id) && (s.owner.None? ==> IsCanceled(s, id))
  {
  }

  lemma FlagsSame(s: State, t: State)
    requires Flagged(s) && t.frames == s.frames && t.owner == s.owner && t.next == s.next
    ensures Flagged(t)
  {
  }

  lemma FlagsFreed(s: State, t: State, id: Id, gone: Id)
    requires Flagged(s) && t.owner == s.owner && t.next == s.next && id in s.frames && gone != ROOT
    requires t.frames == s.frames[id := s.frames[id].(inner := None)] - {gone}
    ensures Flagged(t)
  {
  }

  lemma StandsOn(s: State, t: State, chain: seq<Id>, cur: nat)
    requires Linked(s, chain) && t.frames == s.frames && t.runs == s.runs && Stands(s, chain, cur)
    requires chain[cur] in s.frames && s.frames[chain[cur]].inner.None?
    ensures cur + 1 == |chain| && chain[..cur + 1] == chain
    ensures Linked(t, chain) && Stands(t, chain, cur)
    ensures Covered(s, chain) ==> Covered(t, chain)
  {
    hide Linked, Waits, Runs;
    SameFrames(s, t, chain);
    if cur + 1 < |chain| {
      OneWaits(s, chain, cur);
      assert false;
    }
  }

  lemma FreesInner(s: State, t: State, chain: seq<Id>, cur: nat)
    requires Linked(s, chain) && Stands(s, chain, cur) && InnerDone(s, chain, cur) && chain[cur] in s.frames
    requires s.control == Resume(chain[cur]) && t == DoAdvance(s) && Readable(s, chain[cur])
    ensures Linked(t, chain[..cur + 1]) && Stands(t, chain[..cur + 1], cur)
    ensures Covered(s, chain) ==> Covered(t, chain[..cur + 1])
    ensures chain[cur + 1] in s.frames && chain[cur + 1] != ROOT
    ensures t.frames == s.frames[chain[cur] := s.frames[chain[cur]].(inner := None)] - {chain[cur + 1]}
    ensures t.control == (if IsCanceled(s, chain[cur]) then Final(chain[cur]) else User(chain[cur]))
    ensures t.runs == s.runs && t.pending.None?
  {
    hide Linked, Waits, Runs, Loses, IsCanceled;
    Ends(s, chain);
    OneWaits(s, chain, cur);
    FreeLoses(s, t, chain);
    LosesLinks(s, t, chain);
    LosesStretch(s, t, chain, 0, cur - |s.runs|);
    LosesStretch(s, t, chain, cur - |s.runs|, cur);
  }

  lemma RootAlone(s: State, chain: seq<Id>)
    requires Linked(s, chain) && Covered(s, chain) && |chain| == 1
    ensures s.frames.Keys == {ROOT}
  {
  }

  lemma FinishesCanceled(s: State, chain: seq<Id>, cur: nat)
    requires Shaped(s, chain, cur) && Covered(s, chain) && s.control.Final? && s.frames[chain[cur]].canceled
    ensures Shaped(DoAdvance(s), [], 0) && DoAdvance(s).frames == map[] && DoAdvance(s).control.Idle?
  {
    hide Linked, Waits, Runs, Covered;
    Ends(s, chain);
    RootAlone(s, chain);
    SameFrames(DoAdvance(s), DoAdvance(s), []);
  }

  lemma Ceases(s: State, done: State, chain: seq<Id>, cur: nat)
    requires Linked(s, chain) && cur + 1 == |chain| && Stands(s, chain, cur)
    requires done == Set(s, chain[cur], s.frames[chain[cur]].(phase := Done))
    ensures Linked(done, chain) && Waits(done, chain, 0, cur - |s.runs|) && Runs(done, chain, cur - |s.runs|, cur)
    ensures cur > 0 && |s.runs| > 0 ==>
      Runs(done, chain, cur - |s.runs|, cur - 1) && Runs(done, chain, cur - 1, cur)
    ensures cur > 0 && |s.runs| == 0 ==> Waits(done, chain, 0, cur - 1) && Waits(done, chain, cur - 1, cur)
  {
    hide Linked, Waits, Runs;
    Ends(s, chain);
    TouchLinks(s, done, chain, cur);
    TouchStretch(s, done, chain, cur, 0, cur - |s.runs|);
    TouchStretch(s, done, chain, cur, cur - |s.runs|, cur);
    if cur > 0 && |s.runs| > 0 {
      Joins(done, chain, cur - |s.runs|, cur - 1, cur);
    } else if cur > 0 {
      Joins(done, chain, 0, cur - 1, cur);
    }
  }

  /** A caller inside `Run` goes on; a caller that waits is resumed. */
  lemma Finishes(s: State, chain: seq<Id>, cur: nat)
    requires Shaped(s, chain, cur) && s.control.Final? && !s.frames[chain[cur]].canceled
    ensures Shaped(DoAdvance(s), chain, if cur == 0 then 0 else cur - 1)
    ensures s.owner.None? ==> cur > 0 && !DoAdvance(s).control.Idle?
  {
    hide Linked, Waits, Runs, Touches;
    Ends(s, chain);
    var done := Set(s, chain[cur], s.frames[chain[cur]].(phase := Done));
    Ceases(s, done, chain, cur);
    if cur == 0 {
      SameFrames(done, Return(done), chain);
    } else {
      OneWaits(done, chain, cur - 1);
      if |s.runs| > 0 {
        SameFrames(done, Return(done), chain);
      } else {
        CallerResumed(done, DoAdvance(s), chain, cur - 1);
      }
    }
  }

  lemma CallerResumed(s: State, t: State, chain: seq<Id>, k: nat)
    requires Linked(s, chain) && k + 1 < |chain| && Waits(s, chain, 0, k)
    requires chain[k] in s.frames && t.frames == s.frames[chain[k] := s.frames[chain[k]].(phase := Running)]
    ensures Linked(t, chain) && Waits(t, chain, 0, k) && Runs(t, chain, k, k)
    ensures t.frames[chain[k + 1]] == s.frames[chain[k + 1]]
  {
    hide Linked, Waits, Runs;
    Apart(s, chain);
    TouchLinks(s, t, chain, k);
    TouchStretch(s, t, chain, k, 0, k);
    EmptyStretch(t, chain, k, k);
  }

  lemma Fires(s: State, chain: seq<Id>, cur: nat)
    requires Shaped(s, chain, cur) && Enabled(s, Fire)
    ensures chain != [] && Shaped(Do(s, Fire), chain, |chain| - 1)
    ensures Do(s, Fire).control.Resume? && Do(s, Fire).runs == []
  {
    hide Linked, Waits, Runs;
    Ends(s, chain);
    var t, n := Do(s, Fire), |chain|;
    TouchLinks(s, t, chain, n - 1);
    TouchStretch(s, t, chain, n - 1, 0, n - 1);
    EmptyStretch(t, chain, n - 1, n - 1);
  }

  lemma AwaitsTask(s: State, chain: seq<Id>, cur: nat)
    requires Shaped(s, chain, cur) && Enabled(s, AwaitTask)
    ensures Shaped(Do(s, AwaitTask), chain + [s.next], cur + 1)
    ensures Covered(s, chain) ==> Covered(Do(s, AwaitTask), chain + [s.next])
  {
    hide Flagged, Linked, Waits, Runs, Extends;
    Ends(s, chain);
    var t := Do(s, AwaitTask);
    AwaitFlags(s);
    NewExtends(s, t, chain);
    ExtendsLinks(s, t, chain, s.next);
    ExtendsStretch(s, t, chain, s.next, 0, cur - |s.runs|);
    ExtendsStretch(s, t, chain, s.next, cur - |s.runs|, cur);
    OneWaits(t, chain + [s.next], cur);
    Joins(t, chain + [s.next], cur - |s.runs|, cur, cur + 1);
  }

  lemma AwaitFlags(s: State)
    requires Flagged(s) && Enabled(s, AwaitTask)
    ensures Flagged(Do(s, AwaitTask)) && s.next !in s.frames
  {
  }

  lemma NewExtends(s: State, t: State, chain: seq<Id>)
    requires Flagged(s) && Linked(s, chain) && chain != [] && Enabled(s, AwaitTask)
    requires s.control.frame == chain[|chain| - 1] && t == Do(s, AwaitTask)
    ensures Extends(s, t, chain, s.next)
  {
  }

  lemma AwaitsOutside(s: State, chain: seq<Id>, cur: nat)
    requires Shaped(s, chain, cur) && Enabled(s, AwaitOutside)
    ensures Shaped(Do(s, AwaitOutside), chain, if cur == 0 then 0 else cur - 1)
  {
    hide Linked, Waits, Runs, Stands;
    Ends(s, chain);
    var id := chain[cur];
    var t := Set(s, id, s.frames[id].(phase := Suspended)).(pending := Some(id));
    TouchStands(s, t, chain, cur);
    EmptyStretch(t, chain, cur, |chain| - 1);
    ReturnsParked(t, chain, cur);
  }

  /** The other steps of the body, and the start, only move the thread. */
  lemma Moves(s: State, chain: seq<Id>, cur: nat, step: Step)
    requires Shaped(s, chain, cur) && Covered(s, chain)
    requires Enabled(s, step) && (step.AwaitReady? || step.Finish? || step.RunRoot?)
    ensures Shaped(Do(s, step), chain, if step.RunRoot? then 0 else cur)
  {
    hide Linked, Waits, Runs, Covered;
    NotEmpty(s, chain);
    SameFrames(s, Do(s, step), chain);
    Ends(s, chain);
    if step.RunRoot? {
      StartsFresh(s, chain);
      EmptyStretch(Do(s, step), chain, 0, 0);
    }
  }

  lemma StartsFresh(s: State, chain: seq<Id>)
    requires Linked(s, chain) && chain != [] && s.frames[ROOT].phase == Created
    ensures !Parked(s, chain, 0)
  {
  }

  lemma RootBusy(s: State, chain: seq<Id>, cur: nat)
    requires Linked(s, chain) && cur < |chain|
    requires (cur > 0 && Stands(s, chain, cur)) || Parked(s, chain, 0)
    ensures s.frames[ROOT].phase != Done
  {
  }

  lemma DropsDone(s: State, chain: seq<Id>, cur: nat)
    requires Shaped(s, chain, cur) && Covered(s, chain) && Enabled(s, DropOwner) && s.frames[ROOT].phase == Done
    ensures Shaped(Do(s, DropOwner), [], cur) && Do(s, DropOwner).frames == map[]
  {
    hide Linked, Waits, Runs, Covered, Stands, Parked;
    NotEmpty(s, chain);
    Ends(s, chain);
    if s.control.User? && cur > 0 {
      RootBusy(s, chain, cur);
    } else if s.control.Idle? && Parked(s, chain, 0) {
      RootBusy(s, chain, 0);
    } else {
      RootAlone(s, chain);
      NothingLeft(Do(s, DropOwner), cur);
    }
  }

  lemma NothingLeft(s: State, cur: nat)
    requires s.frames == map[] && s.control.Idle? && s.runs == [] && s.pending.None? && s.owner.None? && s.next > 0
    ensures Shaped(s, [], cur)
  {
  }

  lemma DropsLive(s: State, chain: seq<Id>, cur: nat)
    requires Shaped(s, chain, cur) && Covered(s, chain) && Enabled(s, DropOwner) && s.frames[ROOT].phase != Done
    ensures Shaped(Do(s, DropOwner), chain, cur)
  {
    hide Linked, Waits, Runs, Covered, Stands, Parked;
    NotEmpty(s, chain);
    Ends(s, chain);
    var t := Do(s, DropOwner);
    TouchLinks(s, t, chain, 0);
    if s.control.User? {
      FlagStands(s, t, chain, cur);
    } else if Parked(s, chain, 0) {
      FlagParked(s, t, chain);
    }
  }

  lemma FlagStands(s: State, t: State, chain: seq<Id>, cur: nat)
    requires Linked(s, chain) && Linked(t, chain) && Stands(s, chain, cur) && Touches(s, t, chain[0]) && s.runs == t.runs
    requires chain[0] in s.frames && t.frames[chain[0]] == s.frames[chain[0]].(canceled := true)
    ensures Stands(t, chain, cur)
  {
    hide Linked, Waits, Runs, Touches;
    TouchStretch(s, t, chain, 0, 0, cur - |s.runs|);
    TouchStretch(s, t, chain, 0, cur - |s.runs|, cur);
  }

  lemma FlagParked(s: State, t: State, chain: seq<Id>)
    requires Linked(s, chain) && Linked(t, chain) && Parked(s, chain, 0) && Touches(s, t, chain[0])
    requires chain[0] in s.frames && t.frames[chain[0]] == s.frames[chain[0]].(canceled := true) && t.pending == s.pending
    ensures Parked(t, chain, 0)
  {
    hide Linked, Waits, Runs;
    Ends(s, chain);
    TouchStretch(s, t, chain, 0, 0, |chain| - 1);
  }

  lemma NotEmpty(s: State, chain: seq<Id>)
    requires Covered(s, chain) && ROOT in s.frames
    ensures chain != []
  {
  }

  // ----- every run -----

  ghost predicate Good(s: State) {
    Conserved(s) && exists chain, cur :: Shaped(s, chain, cur) && Covered(s, chain)
  }

  predicate SameBooks(s: State, t: State) {
    t.frames.Keys == s.frames.Keys && t.destroyed == s.destroyed && t.next == s.next
  }

  predicate Freed(s: State, t: State, id: Id) {
    id in s.frames && t.frames.Keys == s.frames.Keys - {id} && t.destroyed == s.destroyed + multiset{id} && t.next == s.next
  }

  predicate Allocated(s: State, t: State) {
    t.frames.Keys == s.frames.Keys + {s.next} && t.destroyed == s.destroyed && t.next == s.next + 1
  }

  lemma BooksConserve(s: State, t: State, id: Id)
    requires Conserved(s) && (SameBooks(s, t) || Freed(s, t, id) || Allocated(s, t))
    ensures Conserved(t)
  {
    assert s.destroyed[s.next] + (if s.next in s.frames then 1 else 0) == 0;
  }

  /** The frame a step may free. */
  function Freeable(s: State, step: Step): Id {
    if step.DropOwner? && s.owner.Some? then s.owner.value
    else if s.control.Resume? && s.control.frame in s.frames && s.frames[s.control.frame].inner.Some? then
      s.frames[s.control.frame].inner.value
    else if s.control.Final? then s.control.frame
    else ROOT
  }

  lemma StepBooks(s: State, step: Step)
    requires Enabled(s, step) && Do(s, step).control != Crash
    ensures SameBooks(s, Do(s, step)) || Freed(s, Do(s, step), Freeable(s, step)) || Allocated(s, Do(s, step))
  {
    hide Readable, IsCanceled, Allocated, Freed;
    match step
    case AwaitTask => AllocatedBy(s);
    case DropOwner =>
      DropBooks(s.(owner := None), s.owner.value);
      SameThen(s, s.(owner := None), Do(s, step), s.owner.value);
    case Advance =>
      if s.control.Resume? {
        ResumeBooks(s, s.control.frame);
      } else if s.control.Final? {
        FinalBooks(s, s.control.frame);
      }
    case _ =>
  }

  lemma AllocatedBy(s: State)
    requires Enabled(s, AwaitTask)
    ensures Allocated(s, Do(s, AwaitTask))
  {
  }

  lemma DropBooks(s: State, id: Id)
    requires DropHandle(s, id).control != Crash
    ensures SameBooks(s, DropHandle(s, id)) || Freed(s, DropHandle(s, id), id)
  {
  }

  lemma ResumeBooks(s: State, id: Id)
    requires DoResume(s, id).control != Crash
    ensures id in s.frames
    ensures if s.frames[id].inner.None? then SameBooks(s, DoResume(s, id))
            else SameBooks(s, DoResume(s, id)) || Freed(s, DoResume(s, id), s.frames[id].inner.value)
  {
    hide DropHandle, IsCanceled, Freed;
    CheckBooks(s, id);
    if s.frames[id].inner.Some? {
      var inner := s.frames[id].inner.value;
      var u := Set(Check(s, id), id, s.frames[id].(inner := None));
      DropBooks(u, inner);
      SameThen(s, u, DoResume(s, id), inner);
    }
  }

  lemma CheckBooks(s: State, id: Id)
    ensures SameBooks(s, Check(s, id)) && Check(s, id).frames == s.frames
    ensures Check(s, id).control != Crash ==> id in s.frames
  {
  }

  lemma SameThen(s: State, u: State, t: State, id: Id)
    requires u.frames.Keys == s.frames.Keys && u.destroyed == s.destroyed && u.next == s.next
    requires SameBooks(u, t) || Freed(u, t, id)
    ensures SameBooks(s, t) || Freed(s, t, id)
  {
  }

  lemma FinalBooks(s: State, id: Id)
    requires DoFinal(s, id).control != Crash
    ensures SameBooks(s, DoFinal(s, id)) || Freed(s, DoFinal(s, id), id)
  {
  }

  lemma ConservedStep(s: State, step: Step)
    requires Conserved(s) && Enabled(s, step) && Do(s, step).control != Crash
    ensures Conserved(Do(s, step))
  {
    hide *;
    StepBooks(s, step);
    BooksConserve(s, Do(s, step), Freeable(s, step));
  }

  lemma CoveredByKeys(s: State, t: State, chain: seq<Id>)
    requires Covered(s, chain) && t.frames.Keys == s.frames.Keys
    ensures Covered(t, chain)
  {
  }

  lemma NoFramesCovered(s: State, chain: seq<Id>)
    requires s.frames == map[]
    ensures Covered(s, chain)
  {
  }

  function NextChain(s: State, chain: seq<Id>, cur: nat): seq<Id>
    requires Linked(s, chain) && cur < |chain|
  {
    if s.control.Resume? then chain[..cur + 1]
    else if s.control.Final? && s.frames[chain[cur]].canceled then []
    else chain
  }

  function NextCur(s: State, chain: seq<Id>, cur: nat): nat
    requires Linked(s, chain) && cur < |chain|
  {
    if cur == 0 || s.control.Start? || s.control.Resume? || (s.control.AfterRun? && InnerDone(s, chain, cur)) then cur
    else if s.control.Final? && s.frames[chain[cur]].canceled then 0
    else cur - 1
  }

  lemma AdvanceKeeps(s: State, chain: seq<Id>, cur: nat)
    requires Shaped(s, chain, cur) && Covered(s, chain) && Enabled(s, Advance)
    ensures Linked(s, chain) && cur < |chain|
    ensures Shaped(DoAdvance(s), NextChain(s, chain, cur), NextCur(s, chain, cur))
    ensures Covered(DoAdvance(s), NextChain(s, chain, cur))
  {
    hide *;
    AdvanceKeys(s, chain, cur);
    NextIs(s, chain, cur);
    var t := DoAdvance(s);
    if s.control.Start? {
      Starts(s, chain, cur);
      CoveredByKeys(s, t, chain);
    } else if s.control.AfterRun? {
      Suspends(s, chain, cur);
      CoveredByKeys(s, t, chain);
    } else if s.control.Resume? {
      Resumes(s, chain, cur);
    } else if s.frames[chain[cur]].canceled {
      FinishesCanceled(s, chain, cur);
      NoFramesCovered(t, []);
    } else {
      Finishes(s, chain, cur);
      CoveredByKeys(s, t, chain);
    }
  }

  lemma NextIs(s: State, chain: seq<Id>, cur: nat)
    requires Linked(s, chain) && cur < |chain|
    ensures chain[cur] in s.frames
    ensures s.control.Start? ==> NextChain(s, chain, cur) == chain && NextCur(s, chain, cur) == cur
    ensures s.control.Resume? ==> NextChain(s, chain, cur) == chain[..cur + 1] && NextCur(s, chain, cur) == cur
    ensures s.control.AfterRun? ==> NextChain(s, chain, cur) == chain
    ensures s.control.AfterRun? ==>
      NextCur(s, chain, cur) == if InnerDone(s, chain, cur) || cur == 0 then cur else cur - 1
    ensures s.control.Final? && s.frames[chain[cur]].canceled ==> NextChain(s, chain, cur) == []
    ensures s.control.Final? && s.frames[chain[cur]].canceled ==> NextCur(s, chain, cur) == 0
    ensures s.control.Final? && !s.frames[chain[cur]].canceled ==> NextChain(s, chain, cur) == chain
    ensures s.control.Final? && !s.frames[chain[cur]].canceled ==>
      NextCur(s, chain, cur) == if cur == 0 then 0 else cur - 1
  {
    hide InnerDone;
  }

  lemma AdvanceKeys(s: State, chain: seq<Id>, cur: nat)
    requires Shaped(s, chain, cur) && Enabled(s, Advance)
    ensures cur < |chain| && s.control.frame == chain[cur] && chain[cur] in s.frames
    ensures s.control.Start? || s.control.AfterRun? || s.control.Resume? || s.control.Final?
    ensures s.control.Resume? || (s.control.Final? && s.frames[chain[cur]].canceled)
            || DoAdvance(s).frames.Keys == s.frames.Keys
    ensures Linked(s, chain)
  {
    hide Waits, Runs, Flagged;
    Ends(s, chain);
  }

  lemma StepShapes(s: State, chain: seq<Id>, cur: nat, step: Step)
    requires Shaped(s, chain, cur) && Covered(s, chain) && Enabled(s, step)
    ensures exists chain', cur' :: Shaped(Do(s, step), chain', cur') && Covered(Do(s, step), chain')
  {
    hide *;
    var t := Do(s, step);
    NeverCrash(s, chain, cur);
    StepKeys(s, step);
    match step
    case Advance => AdvanceKeeps(s, chain, cur);
    case AwaitTask => AwaitsTask(s, chain, cur);
    case AwaitOutside => AwaitsOutside(s, chain, cur); CoveredByKeys(s, t, chain);
    case Fire => Fires(s, chain, cur); CoveredByKeys(s, t, chain);
    case DropOwner =>
      if s.frames[ROOT].phase == Done {
        DropsDone(s, chain, cur);
        NoFramesCovered(t, []);
      } else {
        DropsLive(s, chain, cur);
        CoveredByKeys(s, t, chain);
      }
    case _ =>
      Moves(s, chain, cur, step);
      CoveredByKeys(s, t, chain);
  }

  lemma StepKeys(s: State, step: Step)
    requires Enabled(s, step) && Flagged(s)
    ensures step.Advance? || step.AwaitTask? || step.DropOwner? || Do(s, step).frames.Keys == s.frames.Keys
    ensures step.DropOwner? ==> ROOT in s.frames
    ensures step.DropOwner? && s.frames[ROOT].phase != Done ==> Do(s, step).frames.Keys == s.frames.Keys
    ensures step.Advance? ==> Do(s, step) == DoAdvance(s)
  {
  }

  lemma NeverCrash(s: State, chain: seq<Id>, cur: nat)
    requires Shaped(s, chain, cur)
    ensures s.control != Crash && Flagged(s)
  {
    hide Flagged, Linked, Stands, Parked;
  }

  lemma StepKeeps(s: State, step: Step)
    requires Good(s) && Enabled(s, step)
    ensures Good(Do(s, step)) && Do(s, step).control != Crash
  {
    hide Conserved, Shaped, Covered, Enabled, Do;
    var chain, cur :| Shaped(s, chain, cur) && Covered(s, chain);
    StepShapes(s, chain, cur, step);
    var chain', cur' :| Shaped(Do(s, step), chain', cur') && Covered(Do(s, step), chain');
    NeverCrash(Do(s, step), chain', cur');
    ConservedStep(s, step);
  }

  /** No run frees a frame twice, or touches, resumes or asks a frame that has been freed or is running. */
  lemma {:induction false} RunIsSafe(states: seq<State>, steps: seq<Step>, k: nat)
    requires IsRun(states, steps) && k < |states|
    ensures Good(states[k]) && states[k].control != Crash
  {
    hide Conserved, Shaped, Covered, Do;
    if k == 0 {
      ShapedInitially();
      assert Shaped(states[0], [ROOT], 0) && Covered(states[0], [ROOT]);
    } else {
      RunIsSafe(states, steps, k - 1);
      StepKeeps(states[k - 1], steps[k - 1]);
      assert states[(k - 1) + 1] == Do(states[k - 1], steps[k - 1]);
    }
  }

  lemma RunKeepsOwnerGone(states: seq<State>, steps: seq<Step>, k: nat)
    requires IsRun(states, steps) && k + 1 < |states| && states[k].owner.None?
    ensures states[k + 1].owner.None? && states[k + 1].segments == states[k].segments
  {
    hide Shaped, Covered, Conserved, Do;
    RunIsSafe(states, steps, k);
    var chain, cur :| Shaped(states[k], chain, cur) && Covered(states[k], chain);
    NeverCrash(states[k], chain, cur);
    NoBodyEntered(states[k], steps[k]);
  }

  /** With the owner's handle gone every frame finds the flag set. */
  lemma NoBodyEntered(s: State, step: Step)
    requires Flagged(s) && s.owner.None? && Enabled(s, step)
    ensures Do(s, step).owner.None? && Do(s, step).segments == s.segments
  {
  }

  /** Once the owner's handle has died, no body of any frame in the chain is entered past a suspension point. */
  lemma {:induction false} NoBodyAfterDrop(states: seq<State>, steps: seq<Step>, i: nat, j: nat)
    requires IsRun(states, steps) && i <= j < |states| && states[i].owner.None?
    ensures states[j].owner.None? && states[j].segments == states[i].segments
  {
    hide IsRun;
    if i < j {
      NoBodyAfterDrop(states, steps, i, j - 1);
      RunKeepsOwnerGone(states, steps, j - 1);
    }
  }

  // ----- the end of a dropped task -----

  function Advances(s: State, n: nat): State
    decreases n
  {
    if n == 0 then s else Advances(DoAdvance(s), n - 1)
  }

  lemma {:induction false} AdvancesIdle(s: State, n: nat)
    requires s.control.Idle?
    ensures Advances(s, n) == s
  {
    if n > 0 {
      AdvancesIdle(s, n - 1);
    }
  }

  /** Where control is between two frames, for termination. */
  function Rank(s: State): nat {
    match s.control
    case AfterRun(_) => 2
    case Start(_) => 1
    case Resume(_) => 1
    case _ => 0
  }

  /** With the owner's handle gone, every step of the machinery moves down the chain. */
  lemma AdvanceDescends(s: State, chain: seq<Id>, cur: nat)
    requires Shaped(s, chain, cur) && Covered(s, chain) && Enabled(s, Advance) && s.owner.None?
    ensures Linked(s, chain) && cur < |chain|
    ensures DoAdvance(s).control.Idle? || NextCur(s, chain, cur) < cur
            || (NextCur(s, chain, cur) == cur && Rank(DoAdvance(s)) < Rank(s))
  {
    hide *;
    AdvanceKeys(s, chain, cur);
    NextIs(s, chain, cur);
    RankIs(s);
    RankIs(DoAdvance(s));
    NeverCrash(s, chain, cur);
    if s.control.Start? {
      CheckThrows(s, s.control.frame);
    } else if s.control.AfterRun? {
      SuspendDescends(s, chain, cur);
    } else if s.control.Resume? {
      Resumes(s, chain, cur);
    } else if s.frames[chain[cur]].canceled {
      FinishesCanceled(s, chain, cur);
    } else {
      Finishes(s, chain, cur);
    }
  }

  lemma RankIs(s: State)
    ensures Rank(s) == if s.control.AfterRun? then 2 else if s.control.Start? || s.control.Resume? then 1 else 0
  {
  }

  lemma CheckThrows(s: State, id: Id)
    requires Flagged(s) && s.owner.None? && id in s.frames && s.control == Start(id)
    ensures !DoAdvance(s).control.User? && !DoAdvance(s).control.AfterRun?
    ensures !DoAdvance(s).control.Start? && !DoAdvance(s).control.Resume?
  {
  }

  lemma SuspendDescends(s: State, chain: seq<Id>, cur: nat)
    requires Shaped(s, chain, cur) && s.control.AfterRun? && s.owner.None?
    ensures Linked(s, chain)
    ensures InnerDone(s, chain, cur) ==> DoAdvance(s).control.Resume?
    ensures cur == 0 && !InnerDone(s, chain, cur) ==> DoAdvance(s).control.Idle?
  {
    hide Waits, Runs, Flagged, Linked;
    OneWaits(s, chain, cur);
    Ends(s, chain);
    if !InnerDone(s, chain, cur) {
      InnerNotDone(s, chain, cur);
    }
  }

  /** What one step of the machinery never changes. */
  lemma AdvanceFrame(s: State)
    requires Flagged(s) && s.owner.None? && Enabled(s, Advance)
    ensures var t := DoAdvance(s);
      t.owner == s.owner && t.pending == s.pending && t.next == s.next && !t.control.User?
  {
  }

  lemma AdvanceStarted(s: State)
    requires Enabled(s, Advance) && Started(s) && DoAdvance(s).control != Crash
    ensures Started(DoAdvance(s))
  {
    hide DoResume;
    if s.control.Resume? {
      ResumeStarted(s, s.control.frame);
    }
  }

  lemma ResumeStarted(s: State, id: Id)
    requires Started(s)
    ensures Started(DoResume(s, id))
  {
    hide IsCanceled;
  }

  /** The root task has been run. */
  predicate Started(s: State) {
    ROOT in s.frames ==> s.frames[ROOT].phase != Created
  }

  /** The machinery alone gets a dropped task back to the event loop, whatever the depth of the chain. */
  lemma {:induction false} Settles(s: State, chain: seq<Id>, cur: nat)
    requires Shaped(s, chain, cur) && Covered(s, chain) && Conserved(s)
    requires s.owner.None? && !s.control.User? && Started(s)
    ensures exists n: nat :: Settled(s, Advances(s, n))
    decreases !s.control.Idle?, cur, Rank(s)
  {
    hide *;
    NeverCrash(s, chain, cur);
    if s.control.Idle? {
      AdvancesIdle(s, 0);
      SettledIdle(s, chain, cur);
      assert Settled(s, Advances(s, 0));
    } else {
      CanAdvance(s);
      AdvanceFrame(s);
      AdvanceKeeps(s, chain, cur);
      AdvanceDescends(s, chain, cur);
      var t := DoAdvance(s);
      NeverCrash(t, NextChain(s, chain, cur), NextCur(s, chain, cur));
      AdvanceStarted(s);
      ConservedStep(s, Advance);
      Settles(t, NextChain(s, chain, cur), NextCur(s, chain, cur));
      var n: nat :| Settled(t, Advances(t, n));
      AdvancesMore(s, n);
      SettledBefore(s, t, Advances(t, n));
      assert Settled(s, Advances(s, n + 1));
    }
  }

  /** Back in the event loop, all is either destroyed, each frame once, or waits for the pending resumption. */
  ghost predicate Settled(s: State, t: State) {
    && t.control.Idle? && t.pending == s.pending && t.next == s.next && Conserved(t)
    && (t.frames == map[] || t.pending.Some?)
  }

  lemma SettledIdle(s: State, chain: seq<Id>, cur: nat)
    requires Shaped(s, chain, cur) && Covered(s, chain) && Conserved(s)
    requires s.owner.None? && s.control.Idle? && Started(s)
    ensures Settled(s, s)
  {
    hide Waits, Conserved;
    if chain != [] {
      Ends(s, chain);
    } else {
      EmptyChain(s);
    }
  }

  lemma EmptyChain(s: State)
    requires Covered(s, [])
    ensures s.frames == map[]
  {
    assert forall id :: id !in s.frames;
  }

  lemma CanAdvance(s: State)
    requires !s.control.Idle? && !s.control.User? && s.control != Crash
    ensures Enabled(s, Advance) && Do(s, Advance) == DoAdvance(s)
  {
  }

  lemma AdvancesMore(s: State, n: nat)
    ensures Advances(s, n + 1) == Advances(DoAdvance(s), n)
  {
  }

  lemma SettledBefore(s: State, t: State, u: State)
    requires Settled(t, u) && t.pending == s.pending && t.next == s.next
    ensures Settled(s, u)
  {
  }

  lemma FiredStarted(s: State, chain: seq<Id>, cur: nat)
    requires Shaped(s, chain, cur) && Enabled(s, Fire)
    ensures Started(Do(s, Fire)) && Do(s, Fire).pending.None? && Do(s, Fire).control.Resume?
    ensures Do(s, Fire).owner == s.owner && Do(s, Fire).next == s.next
  {
  }

  /** Once the pending resumption of a dropped task arrives, every frame ever created is destroyed exactly once. */
  lemma DroppedTaskEnds(states: seq<State>, steps: seq<Step>, k: nat)
    requires IsRun(states, steps) && k < |states| && states[k].owner.None? && Enabled(states[k], Fire)
    ensures exists n: nat :: var t := Advances(Do(states[k], Fire), n);
      t.control.Idle? && t.frames == map[] && forall id: Id | id < states[k].next :: t.destroyed[id] == 1
  {
    hide Do, Shaped, Covered, Conserved, Enabled, IsRun, Started;
    RunIsSafe(states, steps, k);
    var s := states[k];
    var chain, cur :| Shaped(s, chain, cur) && Covered(s, chain);
    FiredStarted(s, chain, cur);
    StepKeeps(s, Fire);
    var t := Do(s, Fire);
    var chain', cur' :| Shaped(t, chain', cur') && Covered(t, chain');
    Settles(t, chain', cur');
    var n: nat :| Settled(t, Advances(t, n));
    AllDestroyed(t, Advances(t, n));
  }

  lemma AllDestroyed(s: State, t: State)
    requires Settled(s, t) && s.pending.None?
    ensures t.control.Idle? && t.frames == map[] && forall id: Id | id < s.next :: t.destroyed[id] == 1
  {
  }

  /** A dropped task that no resumption is pending for is gone, unless it was never run: then it stays forever. */
  lemma DroppedTaskStays(states: seq<State>, steps: seq<Step>, k: nat)
    requires IsRun(states, steps) && k < |states| && states[k].owner.None? && states[k].control.Idle?
    ensures states[k].frames != map[] && states[k].pending.None?
       <==> ROOT in states[k].frames && states[k].frames[ROOT].phase == Created
    ensures states[k].frames != map[] && states[k].pending.None? ==> forall step :: !Enabled(states[k], step)
  {
    hide Do, IsRun, Conserved, Waits;
    RunIsSafe(states, steps, k);
    var s := states[k];
    var chain, cur :| Shaped(s, chain, cur) && Covered(s, chain);
    if chain == [] {
      EmptyChain(s);
    } else {
      Ends(s, chain);
      ParkedRoot(s, chain);
    }
  }

  lemma ParkedRoot(s: State, chain: seq<Id>)
    requires Linked(s, chain) && chain != []
    ensures Parked(s, chain, 0) ==> s.frames[ROOT].phase == Suspended
  {
  }
}
