/** Commands with pending responses: their ids, the coroutines that await them, and callbacks that issue more. */
module Commands {

  const INVALID_CMD_ID: nat := 0
  const INTEROP_FAILURE := -2

  /** `COMMAND_ID(1)`: the size of the block of ids of one kind. */
  const BLOCK := 256

  /** `COMMAND_ID(100)`, the smallest kind. */
  const FIRST_KIND := 25600

  type Id = nat

  /** The position of a request among all requests; it stands for the coroutine that may await its response. */
  type Ticket = nat

  datatype CommandData = CommandData(ticket: Ticket, callback: bool, response: int)

  /** A command of a kind, whether the invoker takes it and whether a coroutine awaits the response. */
  datatype Request = Request(kind: Id, accepted: bool, awaited: bool)

  /** What came of a request: the id given out and whether the invoker was asked. */
  datatype Issued = Issued(request: Request, id: Id, invoked: bool)

  datatype Resumption = Resumption(ticket: Ticket, value: int)

  /** `active` are the ids whose callbacks are running, outermost first. */
  datatype State = State(
    pending: map<Id, CommandData>,
    issued: seq<Issued>,
    log: seq<Resumption>,
    active: seq<Id>,
    closing: bool)

  predicate IsKind(kind: Id) {
    kind >= FIRST_KIND && kind % BLOCK == 0
  }

  // ----- the operations as functions of the state -----

  /** The first id from a start on that is not taken. */
  function Probe(taken: set<Id>, id: Id): (free: Id)
    ensures free >= id && free !in taken
    ensures forall i | id <= i < free :: i in taken
    decreases taken
  {
    if id in taken then Probe(taken - {id}, id + 1) else id
  }

  /** `FutureResponse::await_resume`. */
  function AwaitResume(s: State, id: Id): int {
    if id in s.pending then s.pending[id].response else INTEROP_FAILURE
  }

  /** A future with the invalid id is ready at once. */
  function DoIssue(s: State, r: Request): State {
    var ticket, id := |s.issued|, Probe(s.pending.Keys, r.kind);
    if id - r.kind >= BLOCK || !r.accepted then
      s.(issued := s.issued + [Issued(r, INVALID_CMD_ID, id - r.kind < BLOCK)],
         log := if r.awaited then s.log + [Resumption(ticket, AwaitResume(s, INVALID_CMD_ID))] else s.log)
    else
      s.(issued := s.issued + [Issued(r, id, true)],
         pending := s.pending[id := CommandData(ticket, r.awaited, INTEROP_FAILURE)])
  }

  function Erase(s: State, id: Id): State {
    s.(pending := s.pending - {id})
  }

  /** The callback of an entry is entered, if there is one; otherwise the entry is erased. */
  function Resume(s: State, id: Id): State
    requires id in s.pending
  {
    if s.pending[id].callback then
      s.(log := s.log + [Resumption(s.pending[id].ticket, AwaitResume(s, id))], active := s.active + [id])
    else
      Erase(s, id)
  }

  function DoSubmit(s: State, id: Id, response: int): State {
    if id !in s.pending then s
    else Resume(s.(pending := s.pending[id := s.pending[id].(response := response)]), id)
  }

  /** The callback returns and its entry is erased. */
  function DoReturn(s: State): State
    requires s.active != []
  {
    Erase(s, s.active[|s.active| - 1]).(active := s.active[..|s.active| - 1])
  }

  datatype Step =
    | Issue(request: Request)
    | Submit(id: Id, response: int)
    | Return
    | BeginDestroy
    | Destroy(id: Id)

  /** A response is not submitted again from inside the callback it leads to. */
  predicate Enabled(s: State, step: Step) {
    match step
    case Issue(r) => IsKind(r.kind) && (s.closing ==> s.active != [])
    case Submit(id, _) => id !in s.active && (s.closing ==> s.active != [])
    case Return => s.active != []
    case BeginDestroy => s.active == [] && !s.closing
    case Destroy(id) => s.active == [] && s.closing && id in s.pending
  }

  function Do(s: State, step: Step): State
    requires Enabled(s, step)
  {
    match step
    case Issue(r) => DoIssue(s, r)
    case Submit(id, response) => DoSubmit(s, id, response)
    case Return => DoReturn(s)
    case BeginDestroy => s.(closing := true)
    case Destroy(id) => Resume(s, id)
  }

  function Initial(): State {
    State(map[], [], [], [], false)
  }

  predicate IsRun(states: seq<State>, steps: seq<Step>) {
    && |states| == |steps| + 1
    && states[0] == Initial()
    && forall k | 0 <= k < |steps| :: Enabled(states[k], steps[k]) && states[k + 1] == Do(states[k], steps[k])
  }

  // ----- ids -----

  /** A request is refused without asking the invoker exactly when all ids of its kind are pending. */
  lemma RefusedWhenFull(taken: set<Id>, kind: Id)
    ensures Probe(taken, kind) - kind >= BLOCK <==> forall i | kind <= i < kind + BLOCK :: i in taken
  {
    if forall i | kind <= i < kind + BLOCK :: i in taken {
      assert Probe(taken, kind) !in taken;
    }
  }

  lemma ProbeIs(taken: set<Id>, kind: Id, free: Id)
    requires kind <= free && free !in taken && forall i | kind <= i < free :: i in taken
    ensures Probe(taken, kind) == free
  {
    assert Probe(taken, kind) !in taken;
  }

  // ----- the invariant -----

  function Times(log: seq<Resumption>, ticket: Ticket): nat {
    if log == [] then 0
    else Times(log[..|log| - 1], ticket) + if log[|log| - 1].ticket == ticket then 1 else 0
  }

  /** A coroutine waits for the response to its request. */
  predicate Waits(s: State, ticket: Ticket) {
    && ticket < |s.issued| && s.issued[ticket].id in s.pending && s.issued[ticket].id !in s.active
    && s.pending[s.issued[ticket].id].ticket == ticket && s.pending[s.issued[ticket].id].callback
  }

  predicate Awaited(s: State, ticket: Ticket) {
    ticket < |s.issued| && s.issued[ticket].request.awaited
  }

  /** Every entry belongs to a request of its kind. */
  predicate Recorded(s: State) {
    forall id | id in s.pending ::
      var data := s.pending[id];
      && data.ticket < |s.issued| && s.issued[data.ticket].id == id
      && s.issued[data.ticket].request.awaited == data.callback
      && s.issued[data.ticket].request.kind == id - id % BLOCK
      && id >= FIRST_KIND
  }

  /** No entry has a response before its callback is entered. */
  predicate Unanswered(s: State) {
    forall id | id in s.pending && id !in s.active :: s.pending[id].response == INTEROP_FAILURE
  }

  /** The entry of a running callback stays until it returns. */
  predicate Stacked(s: State) {
    && (forall i | 0 <= i < |s.active| :: s.active[i] in s.pending && s.pending[s.active[i]].callback)
    && forall i, j | 0 <= i < j < |s.active| :: s.active[i] != s.active[j]
  }

  /** Every awaited request has been answered once, or still waits. */
  ghost predicate Once(s: State) {
    forall t: Ticket :: Times(s.log, t) + (if Waits(s, t) then 1 else 0) == if Awaited(s, t) then 1 else 0
  }

  ghost predicate Good(s: State) {
    Recorded(s) && Unanswered(s) && Stacked(s) && Once(s)
  }

  lemma TimesAppend(log: seq<Resumption>, r: Resumption, ticket: Ticket)
    ensures Times(log + [r], ticket) == Times(log, ticket) + if r.ticket == ticket then 1 else 0
  {
    assert (log + [r])[..|log|] == log;
  }

  // ----- every step keeps it -----

  lemma NewId(kind: Id, id: Id)
    requires IsKind(kind) && kind <= id < kind + BLOCK
    ensures id - id % BLOCK == kind && id >= FIRST_KIND
  {
  }

  lemma IssueKeeps(s: State, r: Request)
    requires Good(s) && IsKind(r.kind)
    ensures Good(DoIssue(s, r))
  {
    hide Probe, IsKind, Once, Waits, Awaited;
    var t, ticket, id := DoIssue(s, r), |s.issued|, Probe(s.pending.Keys, r.kind);
    if id - r.kind < BLOCK {
      NewId(r.kind, id);
    }
    IssueOnce(s, r);
  }

  ghost predicate OnceAt(s: State, t: Ticket) {
    Times(s.log, t) + (if Waits(s, t) then 1 else 0) == if Awaited(s, t) then 1 else 0
  }

  lemma IssueOnce(s: State, r: Request)
    requires Good(s)
    ensures Once(DoIssue(s, r))
  {
    var t := DoIssue(s, r);
    forall x: Ticket
      ensures OnceAt(t, x)
    {
      assert OnceAt(s, x);
      IssueOnceAt(s, r, x);
    }
  }

  lemma IssueOnceAt(s: State, r: Request, x: Ticket)
    requires Recorded(s) && Stacked(s) && OnceAt(s, x)
    ensures OnceAt(DoIssue(s, r), x)
  {
    hide OnceAt, Times, Probe;
    var t, ticket := DoIssue(s, r), |s.issued|;
    OnceAtIs(s, x);
    OnceAtIs(t, x);
    TimesAppend(s.log, Resumption(ticket, AwaitResume(s, INVALID_CMD_ID)), x);
    if x != ticket {
      assert Awaited(t, x) == Awaited(s, x) && Waits(t, x) == Waits(s, x);
    } else {
      assert !Awaited(s, x) && !Waits(s, x);
    }
  }

  lemma ResumeOnce(s: State, id: Id)
    requires Recorded(s) && Stacked(s) && Once(s) && id in s.pending && id !in s.active
    ensures Once(Resume(s, id))
  {
    var t := Resume(s, id);
    forall x: Ticket
      ensures OnceAt(t, x)
    {
      assert OnceAt(s, x);
      if s.pending[id].callback {
        EnteredOnceAt(s, id, x);
      } else {
        ErasedOnceAt(s, id, x);
      }
    }
  }

  lemma EnteredOnceAt(s: State, id: Id, x: Ticket)
    requires Recorded(s) && OnceAt(s, x) && id in s.pending && id !in s.active && s.pending[id].callback
    ensures OnceAt(Resume(s, id), x)
  {
    hide OnceAt, Times;
    TimesAppend(s.log, Resumption(s.pending[id].ticket, AwaitResume(s, id)), x);
    var t := Resume(s, id);
    OnceAtIs(s, x);
    OnceAtIs(t, x);
    assert Waits(s, x) == (Waits(t, x) || x == s.pending[id].ticket);
  }

  lemma OnceAtIs(s: State, x: Ticket)
    ensures OnceAt(s, x) <==> Times(s.log, x) + (if Waits(s, x) then 1 else 0) == if Awaited(s, x) then 1 else 0
  {
  }

  lemma ErasedOnceAt(s: State, id: Id, x: Ticket)
    requires Recorded(s) && OnceAt(s, x) && id in s.pending && id !in s.active && !s.pending[id].callback
    ensures OnceAt(Resume(s, id), x)
  {
  }

  lemma ResumeShapes(s: State, id: Id)
    requires Recorded(s) && Stacked(s) && id in s.pending && id !in s.active
    requires forall i | i in s.pending && i !in s.active && i != id :: s.pending[i].response == INTEROP_FAILURE
    ensures Recorded(Resume(s, id)) && Unanswered(Resume(s, id)) && Stacked(Resume(s, id))
  {
  }

  lemma DestroyKeeps(s: State, id: Id)
    requires Good(s) && id in s.pending && id !in s.active
    ensures Good(Resume(s, id))
  {
    hide Once, Recorded, Stacked, Resume;
    ResumeOnce(s, id);
    ResumeShapes(s, id);
  }

  lemma AnswerOnce(s: State, id: Id, response: int)
    requires Once(s) && id in s.pending
    ensures Once(s.(pending := s.pending[id := s.pending[id].(response := response)]))
  {
    var t := s.(pending := s.pending[id := s.pending[id].(response := response)]);
    forall x: Ticket
      ensures Waits(t, x) == Waits(s, x) && Awaited(t, x) == Awaited(s, x)
    {
    }
  }

  lemma AnswerShapes(s: State, id: Id, response: int)
    requires Recorded(s) && Unanswered(s) && Stacked(s) && id in s.pending && id !in s.active
    ensures var t := s.(pending := s.pending[id := s.pending[id].(response := response)]);
      Recorded(t) && Stacked(t)
      && forall i | i in t.pending && i !in t.active && i != id :: t.pending[i].response == INTEROP_FAILURE
  {
  }

  lemma SubmitKeeps(s: State, id: Id, response: int)
    requires Good(s) && id !in s.active
    ensures Good(DoSubmit(s, id, response))
  {
    hide Once, Recorded, Stacked, Resume;
    if id in s.pending {
      var t := s.(pending := s.pending[id := s.pending[id].(response := response)]);
      AnswerOnce(s, id, response);
      AnswerShapes(s, id, response);
      ResumeOnce(t, id);
      ResumeShapes(t, id);
    }
  }

  lemma ReturnKeeps(s: State)
    requires Good(s) && s.active != []
    ensures Good(DoReturn(s))
  {
    hide Once, Recorded, Stacked, DoReturn, Unanswered;
    ReturnShapes(s);
    ReturnOnce(s);
  }

  lemma ReturnShapes(s: State)
    requires Recorded(s) && Unanswered(s) && Stacked(s) && s.active != []
    ensures Recorded(DoReturn(s)) && Unanswered(DoReturn(s)) && Stacked(DoReturn(s))
  {
    var t := DoReturn(s);
    assert forall id | id in s.active :: id in t.active || id == s.active[|s.active| - 1];
  }

  lemma ReturnOnce(s: State)
    requires Recorded(s) && Stacked(s) && Once(s) && s.active != []
    ensures Once(DoReturn(s))
  {
    var t := DoReturn(s);
    assert forall id | id in s.active :: id in t.active || id == s.active[|s.active| - 1];
    assert forall id | id in t.active :: id in s.active;
    forall x: Ticket
      ensures Waits(t, x) == Waits(s, x)
    {
    }
  }

  lemma StepKeeps(s: State, step: Step)
    requires Good(s) && Enabled(s, step)
    ensures Good(Do(s, step))
  {
    hide Recorded, Unanswered, Stacked, IsKind;
    match step
    case Issue(r) => IssueKeeps(s, r);
    case Submit(id, response) => SubmitKeeps(s, id, response);
    case Return => ReturnKeeps(s);
    case BeginDestroy => BeginKeeps(s);
    case Destroy(id) => DestroyKeeps(s, id);
  }

  lemma BeginKeeps(s: State)
    requires Good(s)
    ensures Good(s.(closing := true))
  {
    var t := s.(closing := true);
    forall x: Ticket
      ensures Waits(t, x) == Waits(s, x) && Awaited(t, x) == Awaited(s, x)
    {
    }
  }

  lemma {:induction false} RunKeeps(states: seq<State>, steps: seq<Step>, k: nat)
    requires IsRun(states, steps) && k < |states|
    ensures Good(states[k])
  {
    hide Good, Do;
    if k == 0 {
      InitialGood();
    } else {
      RunKeeps(states, steps, k - 1);
      StepKeeps(states[k - 1], steps[k - 1]);
      assert states[(k - 1) + 1] == Do(states[k - 1], steps[k - 1]);
    }
  }

  lemma InitialGood()
    ensures Good(Initial())
  {
  }

  // ----- what holds in every run -----

  /** Every coroutine is resumed at most once, and once if the manager has been destroyed. */
  lemma ResumedOnce(states: seq<State>, steps: seq<Step>, k: nat, ticket: Ticket)
    requires IsRun(states, steps) && k < |states|
    ensures Times(states[k].log, ticket) <= 1
    ensures !Awaited(states[k], ticket) ==> Times(states[k].log, ticket) == 0
    ensures states[k].pending == map[] && Awaited(states[k], ticket) ==> Times(states[k].log, ticket) == 1
  {
    RunKeeps(states, steps, k);
  }

  /** A step that resumes a coroutine has a reason: its own response, the destruction, or a request that failed. */
  predicate Explains(s: State, step: Step, r: Resumption) {
    match step
    case Submit(id, response) =>
      id in s.pending && s.pending[id].ticket == r.ticket && r.ticket < |s.issued| && s.issued[r.ticket].id == id
      && r.value == response
    case Destroy(id) => id in s.pending && s.pending[id].ticket == r.ticket && r.value == INTEROP_FAILURE
    case Issue(_) => r.ticket == |s.issued| && r.value == INTEROP_FAILURE
    case _ => false
  }

  lemma StepExplains(s: State, step: Step)
    requires Good(s) && Enabled(s, step)
    ensures Do(s, step).log == s.log
            || exists r :: Do(s, step).log == s.log + [r] && Explains(s, step, r)
  {
    hide Once, Probe, IsKind;
    if step.Issue? && Do(s, step).log != s.log {
      var r := Resumption(|s.issued|, AwaitResume(s, INVALID_CMD_ID));
      assert Do(s, step).log == s.log + [r] && Explains(s, step, r);
    } else if step.Submit? && step.id in s.pending && s.pending[step.id].callback {
      var r := Resumption(s.pending[step.id].ticket, step.response);
      assert Do(s, step).log == s.log + [r] && Explains(s, step, r);
    } else if step.Destroy? && s.pending[step.id].callback {
      var r := Resumption(s.pending[step.id].ticket, INTEROP_FAILURE);
      assert Do(s, step).log == s.log + [r] && Explains(s, step, r);
    }
  }

  /** Every value a coroutine has seen is the response submitted for its id while it was pending, or the failure. */
  lemma {:induction false} OwnResponse(states: seq<State>, steps: seq<Step>, k: nat, i: nat)
    requires IsRun(states, steps) && k < |states| && i < |states[k].log|
    ensures exists j :: 0 <= j < k && Explains(states[j], steps[j], states[k].log[i])
  {
    hide Good, Explains, Do;
    if k > 0 {
      var s, step := states[k - 1], steps[k - 1];
      assert Enabled(s, step) && states[(k - 1) + 1] == Do(s, step);
      RunKeeps(states, steps, k - 1);
      StepExplains(s, step);
      if i < |s.log| {
        OwnResponse(states, steps, k - 1, i);
        assert states[k].log[i] == s.log[i];
      } else {
        assert Explains(states[k - 1], steps[k - 1], states[k].log[i]);
      }
    }
  }

  /** While the callback of an id runs no request gets that id, nor any other pending one. */
  lemma NotReused(states: seq<State>, steps: seq<Step>, k: nat, r: Request)
    requires IsRun(states, steps) && k < |states| && IsKind(r.kind)
    ensures var id := DoIssue(states[k], r).issued[|states[k].issued|].id;
      id !in states[k].active && id !in states[k].pending
  {
    RunKeeps(states, steps, k);
    hide Once, Probe, IsKind;
  }

  /** The entry of an id stays the same, but for its response, until its callback has returned. */
  lemma EntryStays(states: seq<State>, steps: seq<Step>, k: nat, id: Id)
    requires IsRun(states, steps) && k + 1 < |states| && id in states[k].active
    requires steps[k].Return? ==> states[k].active[|states[k].active| - 1] != id
    ensures id in states[k].pending && id in states[k + 1].pending && id in states[k + 1].active
    ensures states[k + 1].pending[id].ticket == states[k].pending[id].ticket
  {
    hide Once, Recorded;
    RunKeeps(states, steps, k);
    var s := states[k];
    assert states[k + 1] == Do(s, steps[k]);
    if steps[k].Return? {
      assert s.active == s.active[..|s.active| - 1] + [s.active[|s.active| - 1]];
    }
  }

  /** The id of a pending command tells its kind. */
  lemma KindOfPending(states: seq<State>, steps: seq<Step>, k: nat, id: Id)
    requires IsRun(states, steps) && k < |states| && id in states[k].pending
    ensures states[k].pending[id].ticket < |states[k].issued|
    ensures states[k].issued[states[k].pending[id].ticket].request.kind == id - id % BLOCK
  {
    RunKeeps(states, steps, k);
  }

  /**
   Requests and responses come at any time, from outside until the destruction begins and from running callbacks
   always; every entry is drained in the end.
   */
  lemma AnythingMayHappen(s: State, r: Request, id: Id, response: int)
    requires Good(s) && IsKind(r.kind)
    ensures !s.closing || s.active != [] ==> Enabled(s, Issue(r)) && (id !in s.active ==> Enabled(s, Submit(id, response)))
    ensures s.active != [] ==> Enabled(s, Return)
    ensures s.active == [] && !s.closing ==> Enabled(s, BeginDestroy)
    ensures s.active == [] && s.closing && id in s.pending ==> Enabled(s, Destroy(id))
  {
  }

  /** The rule that a response is not submitted from inside its own callback is needed: breaking it resumes twice. */
  lemma SubmitInsideCallback(s: State, id: Id, response: int)
    requires Good(s) && id in s.active
    ensures id in s.pending
    ensures Times(DoSubmit(s, id, response).log, s.pending[id].ticket) == 2
  {
    var ticket := s.pending[id].ticket;
    var i :| 0 <= i < |s.active| && s.active[i] == id;
    assert !Waits(s, ticket) && Awaited(s, ticket);
    assert Times(s.log, ticket) == 1;
    TimesAppend(s.log, Resumption(ticket, response), ticket);
  }

  /** Exactly then is every coroutine still resumed at most once. */
  lemma OnceUnlessInside(s: State, id: Id, response: int)
    requires Good(s)
    ensures (forall t: Ticket :: Times(DoSubmit(s, id, response).log, t) <= 1) <==> id !in s.active
  {
    hide Recorded, Unanswered, Stacked;
    if id in s.active {
      SubmitInsideCallback(s, id, response);
    } else {
      SubmitKeeps(s, id, response);
      assert Once(DoSubmit(s, id, response));
    }
  }

  /** A run that gets into a callback, where the rule matters. */
  lemma InsideIsReached() returns (states: seq<State>, steps: seq<Step>)
    ensures IsRun(states, steps) && |steps| == 2 && states[2].active == [FIRST_KIND]
    ensures exists t :: Times(DoSubmit(states[2], FIRST_KIND, 0).log, t) == 2
  {
    var r := Request(FIRST_KIND, true, true);
    var issued := DoIssue(Initial(), r);
    ProbeIs({}, FIRST_KIND, FIRST_KIND);
    assert Initial().pending.Keys == {};
    var answered := DoSubmit(issued, FIRST_KIND, 0);
    states, steps := [Initial(), issued, answered], [Issue(r), Submit(FIRST_KIND, 0)];
    assert IsRun(states, steps);
    RunKeeps(states, steps, 2);
    SubmitInsideCallback(answered, FIRST_KIND, 0);
  }

  // ----- the manager -----

  /** What a coroutine may do with the manager while it runs: issue requests and submit responses. */
  datatype Action = Ask(request: Request) | Answer(id: Id, response: int, inner: seq<Action>)

  /** The state after the innermost callback has returned. */
  function CallbackDone(s: State): State {
    if s.active == [] then s else DoReturn(s)
  }

  function Acted(s: State, script: seq<Action>): State
    decreases script, 0
  {
    if script == [] then s else Acted(ActedOne(s, script[0]), script[1..])
  }

  /** A response is not submitted from inside the callback it leads to. */
  function ActedOne(s: State, action: Action): State
    decreases action, 0
  {
    match action
    case Ask(r) => DoIssue(s, r)
    case Answer(id, response, inner) => if id in s.active then s else Submitted(s, id, response, inner)
  }

  /** A response is submitted, and the coroutine that waits for it does what is in a script before it returns. */
  function Submitted(s: State, id: Id, response: int, script: seq<Action>): State
    decreases script, 1
  {
    if id in s.pending && s.pending[id].callback
    then CallbackDone(Acted(DoSubmit(s, id, response), script))
    else DoSubmit(s, id, response)
  }

  predicate Kinds(script: seq<Action>)
    decreases script
  {
    forall k | 0 <= k < |script| ::
      match script[k]
      case Ask(r) => IsKind(r.kind)
      case Answer(_, _, inner) => Kinds(inner)
  }

  lemma {:induction false} ActedFrame(s: State, script: seq<Action>)
    ensures Acted(s, script).active == s.active && Acted(s, script).closing == s.closing
    decreases script, 0
  {
    hide Probe, DoSubmit;
    if script != [] {
      if script[0].Answer? {
        SubmittedFrame(s, script[0].id, script[0].response, script[0].inner);
      }
      ActedFrame(ActedOne(s, script[0]), script[1..]);
    }
  }

  lemma {:induction false} SubmittedFrame(s: State, id: Id, response: int, script: seq<Action>)
    ensures Submitted(s, id, response, script).active == s.active
    ensures Submitted(s, id, response, script).closing == s.closing
    decreases script, 1
  {
    hide Acted;
    if id in s.pending && s.pending[id].callback {
      ActedFrame(DoSubmit(s, id, response), script);
    }
  }

  /** What has been seen stays on the record. */
  lemma {:induction false} ActedGrows(s: State, script: seq<Action>)
    ensures s.log <= Acted(s, script).log
    decreases script, 0
  {
    hide Probe, DoSubmit;
    if script != [] {
      if script[0].Answer? {
        SubmittedGrows(s, script[0].id, script[0].response, script[0].inner);
      }
      ActedGrows(ActedOne(s, script[0]), script[1..]);
    }
  }

  lemma {:induction false} SubmittedGrows(s: State, id: Id, response: int, script: seq<Action>)
    ensures s.log <= Submitted(s, id, response, script).log
    decreases script, 1
  {
    hide Acted;
    if id in s.pending && s.pending[id].callback {
      ActedGrows(DoSubmit(s, id, response), script);
    }
  }

  lemma {:induction false} ActedKeeps(s: State, script: seq<Action>)
    requires Good(s) && Kinds(script)
    ensures Good(Acted(s, script))
    decreases script, 0
  {
    hide Good, IsKind, Probe, Submitted, DoIssue;
    if script != [] {
      match script[0] {
        case Ask(r) => IssueKeeps(s, r);
        case Answer(id, response, inner) =>
          if id !in s.active {
            SubmittedKeeps(s, id, response, inner);
          }
      }
      ActedKeeps(ActedOne(s, script[0]), script[1..]);
    }
  }

  /** The rule is kept from outside too: the response is not submitted from inside its own callback. */
  lemma {:induction false} SubmittedKeeps(s: State, id: Id, response: int, script: seq<Action>)
    requires Good(s) && id !in s.active && Kinds(script)
    ensures Good(Submitted(s, id, response, script))
    decreases script, 1
  {
    hide Good, Acted, Kinds;
    SubmitKeeps(s, id, response);
    if id in s.pending && s.pending[id].callback {
      var t := DoSubmit(s, id, response);
      ActedFrame(t, script);
      ActedKeeps(t, script);
      ReturnKeeps(Acted(t, script));
    }
  }

  lemma NoKinds()
    ensures Kinds([])
  {
  }

  /** One turn of the draining loop: the callback of an entry runs, then the entry is erased. */
  lemma DrainKeeps(s: State, id: Id, script: seq<Action>)
    requires Good(s) && s.active == [] && s.closing && id in s.pending && Kinds(script)
    ensures !s.pending[id].callback ==> Good(Erase(s, id))
    ensures s.pending[id].callback ==>
              var t := Acted(Resume(s, id), script);
              t.active == [id] && t.closing && Good(Erase(t, id).(active := []))
              && (script == [] ==> t.pending == s.pending)
  {
    hide Good, Erase, Kinds;
    DestroyKeeps(s, id);
    if s.pending[id].callback {
      var t := Acted(Resume(s, id), script);
      ActedFrame(Resume(s, id), script);
      ActedKeeps(Resume(s, id), script);
      ReturnKeeps(t);
      assert [] + [id] == [id] && t.active[..|t.active| - 1] == [];
    }
  }

  // ----- what the manager does is made of steps -----

  /** The steps are possible one after the other and lead from one state to the other. */
  ghost predicate Leads(s: State, steps: seq<Step>, t: State)
    decreases |steps|
  {
    if steps == [] then s == t else Enabled(s, steps[0]) && Leads(Do(s, steps[0]), steps[1..], t)
  }

  lemma {:induction false} LeadsOn(s: State, a: seq<Step>, t: State, b: seq<Step>, u: State)
    requires Leads(s, a, t) && Leads(t, b, u)
    ensures Leads(s, a + b, u)
    decreases |a|
  {
    hide Do, Enabled;
    if a == [] {
      assert a + b == b;
    } else {
      assert (a + b)[1..] == a[1..] + b;
      LeadsOn(Do(s, a[0]), a[1..], t, b, u);
    }
  }

  lemma LeadsOne(s: State, step: Step)
    requires Enabled(s, step)
    ensures Leads(s, [step], Do(s, step))
  {
    hide Do, Enabled;
    assert [step][1..] == [];
  }

  /** A script, or one inside it, submits the response. */
  predicate Offers(script: seq<Action>, id: Id, response: int)
    decreases script
  {
    exists k :: 0 <= k < |script| &&
      match script[k]
      case Ask(_) => false
      case Answer(other, value, inner) => (other == id && value == response) || Offers(inner, id, response)
  }

  /** A script, or one inside it, issues the request. */
  predicate Asks(script: seq<Action>, r: Request)
    decreases script
  {
    exists k :: 0 <= k < |script| &&
      match script[k]
      case Ask(request) => request == r
      case Answer(_, _, inner) => Asks(inner, r)
  }

  /** A step a script may lead to: it issues or submits what is in the script, or a callback returns. */
  predicate Scripted(step: Step, script: seq<Action>) {
    match step
    case Issue(r) => Asks(script, r)
    case Submit(id, response) => Offers(script, id, response)
    case Return => true
    case _ => false
  }

  /** Nothing is issued or submitted from outside once the manager is being destroyed. */
  predicate Open(s: State) {
    s.closing ==> s.active != []
  }

  lemma {:induction false} ActedLeads(s: State, script: seq<Action>) returns (steps: seq<Step>)
    requires Open(s) && Kinds(script)
    ensures Leads(s, steps, Acted(s, script)) && forall step | step in steps :: Scripted(step, script)
    decreases script, 0
  {
    hide Do, Enabled, IsKind, Submitted, Scripted, Leads;
    if script == [] {
      steps := [];
      LeadsNowhere(s);
    } else {
      var t := ActedOne(s, script[0]);
      var first := OneLeads(s, script);
      OneFrame(s, script[0]);
      var rest := ActedLeads(t, script[1..]);
      LeadsOn(s, first, t, rest, Acted(s, script));
      steps := first + rest;
      forall step | step in rest
        ensures Scripted(step, script)
      {
        LongerScript(step, script);
      }
    }
  }

  lemma LeadsNowhere(s: State)
    ensures Leads(s, [], s)
  {
  }

  lemma OneFrame(s: State, action: Action)
    ensures ActedOne(s, action).active == s.active && ActedOne(s, action).closing == s.closing
  {
    hide Submitted, Probe;
    if action.Answer? {
      SubmittedFrame(s, action.id, action.response, action.inner);
    }
  }

  lemma LongerScript(step: Step, script: seq<Action>)
    requires script != [] && Scripted(step, script[1..])
    ensures Scripted(step, script)
  {
    var rest := script[1..];
    assert forall k | 0 <= k < |rest| :: rest[k] == script[k + 1];
    if step.Submit? {
      OffersIs(rest, step.id, step.response);
      var k :| 0 <= k < |rest| && AnswersWith(rest[k], step.id, step.response);
      assert AnswersWith(script[k + 1], step.id, step.response);
      OffersIs(script, step.id, step.response);
    } else if step.Issue? {
      AsksIs(rest, step.request);
      var k :| 0 <= k < |rest| && AsksFor(rest[k], step.request);
      assert AsksFor(script[k + 1], step.request);
      AsksIs(script, step.request);
    }
  }

  predicate AnswersWith(action: Action, id: Id, response: int) {
    action.Answer? && ((action.id == id && action.response == response) || Offers(action.inner, id, response))
  }

  predicate AsksFor(action: Action, r: Request) {
    if action.Ask? then action.request == r else Asks(action.inner, r)
  }

  lemma OffersIs(script: seq<Action>, id: Id, response: int)
    ensures Offers(script, id, response) <==> exists k :: 0 <= k < |script| && AnswersWith(script[k], id, response)
  {
    if Offers(script, id, response) {
      var k :| 0 <= k < |script| &&
        match script[k]
        case Ask(_) => false
        case Answer(other, value, inner) => (other == id && value == response) || Offers(inner, id, response);
      assert AnswersWith(script[k], id, response);
    }
  }

  lemma AsksIs(script: seq<Action>, r: Request)
    ensures Asks(script, r) <==> exists k :: 0 <= k < |script| && AsksFor(script[k], r)
  {
    if Asks(script, r) {
      var k :| 0 <= k < |script| &&
        match script[k]
        case Ask(request) => request == r
        case Answer(_, _, inner) => Asks(inner, r);
      assert AsksFor(script[k], r);
    }
  }

  lemma {:induction false} OneLeads(s: State, script: seq<Action>) returns (steps: seq<Step>)
    requires Open(s) && script != [] && Kinds(script)
    ensures Leads(s, steps, ActedOne(s, script[0])) && forall step | step in steps :: Scripted(step, script)
    decreases script[0]
  {
    hide Do, IsKind, Submitted, Leads;
    match script[0]
    case Ask(r) =>
      steps := [Issue(r)];
      LeadsOne(s, Issue(r));
      IssueIs(s, r);
      AsksIs(script, r);
      assert AsksFor(script[0], r);
    case Answer(id, response, inner) =>
      if id in s.active {
        steps := [];
        LeadsNowhere(s);
      } else {
        steps := SubmittedLeads(s, id, response, inner);
        forall step | step in steps
          ensures Scripted(step, script)
        {
          InnerScript(step, script, id, response, inner);
        }
      }
  }

  lemma IssueIs(s: State, r: Request)
    requires Enabled(s, Issue(r))
    ensures Do(s, Issue(r)) == DoIssue(s, r)
  {
  }

  lemma InnerScript(step: Step, script: seq<Action>, id: Id, response: int, inner: seq<Action>)
    requires script != [] && script[0] == Answer(id, response, inner)
    requires step == Submit(id, response) || Scripted(step, inner)
    ensures Scripted(step, script)
  {
    hide Kinds, Offers, Asks;
    if step.Submit? {
      OffersIs(script, step.id, step.response);
      assert step == Submit(id, response) || Offers(inner, step.id, step.response);
      assert AnswersWith(script[0], step.id, step.response);
    } else if step.Issue? {
      AsksIs(script, step.request);
      assert AsksFor(script[0], step.request);
    }
  }

  lemma {:induction false} SubmittedLeads(s: State, id: Id, response: int, script: seq<Action>)
      returns (steps: seq<Step>)
    requires Open(s) && id !in s.active && Kinds(script)
    ensures Leads(s, steps, Submitted(s, id, response, script))
    ensures forall step | step in steps :: step == Submit(id, response) || Scripted(step, script)
    decreases script, 1
  {
    hide Acted, Kinds, Offers, Leads;
    var t := DoSubmit(s, id, response);
    steps := [Submit(id, response)];
    LeadsOne(s, Submit(id, response));
    if id in s.pending && s.pending[id].callback {
      ActedFrame(t, script);
      var inner := ActedLeads(t, script);
      LeadsOn(s, steps, t, inner, Acted(t, script));
      LeadsOne(Acted(t, script), Return);
      LeadsOn(s, steps + inner, Acted(t, script), [Return], Submitted(s, id, response, script));
      steps := steps + inner + [Return];
    }
  }

  /** Along any steps each new value is the failure or a response submitted in one of them. */
  lemma {:induction false} LeadsExplains(s: State, steps: seq<Step>, t: State)
    requires Good(s) && Leads(s, steps, t)
    ensures Good(t) && s.log <= t.log
    ensures forall i | |s.log| <= i < |t.log| ::
      t.log[i].value == INTEROP_FAILURE
      || exists step :: step in steps && step.Submit? && step.response == t.log[i].value
    decreases |steps|
  {
    hide Good, Do, Enabled;
    if steps != [] {
      var u := Do(s, steps[0]);
      StepKeeps(s, steps[0]);
      StepLogs(s, steps[0]);
      LeadsExplains(u, steps[1..], t);
      assert steps == [steps[0]] + steps[1..];
    }
  }

  lemma StepLogs(s: State, step: Step)
    requires Good(s) && Enabled(s, step)
    ensures var t := Do(s, step);
      t.log == s.log
      || (|t.log| == |s.log| + 1 && t.log[..|s.log|] == s.log
          && (t.log[|s.log|].value == INTEROP_FAILURE || (step.Submit? && step.response == t.log[|s.log|].value)))
  {
    hide Good, Do, Enabled;
    StepExplains(s, step);
    if Do(s, step).log != s.log {
      var r :| Do(s, step).log == s.log + [r] && Explains(s, step, r);
    }
  }

  /** A step of the destructor: an entry is drained, or a callback does what is in one of the scripts. */
  predicate Drains(step: Step, scripts: seq<seq<Action>>) {
    step.Destroy? || step.Return? || exists k :: 0 <= k < |scripts| && Scripted(step, scripts[k])
  }

  /** One of the scripts submits a response with the value. */
  ghost predicate Offered(scripts: seq<seq<Action>>, value: int) {
    exists k: nat, id: Id :: k < |scripts| && Offers(scripts[k], id, value)
  }

  /** The steps of the destructor, from its beginning on. */
  ghost predicate DestroyedBy(s: State, steps: seq<Step>, scripts: seq<seq<Action>>, t: State) {
    && Leads(s, [BeginDestroy] + steps, t)
    && forall step | step in steps :: Drains(step, scripts)
  }

  /** One turn of the draining loop. */
  lemma TurnLeads(s: State, id: Id, script: seq<Action>) returns (steps: seq<Step>)
    requires s.active == [] && s.closing && id in s.pending && Kinds(script)
    ensures Leads(s, steps, if s.pending[id].callback then CallbackDone(Acted(Resume(s, id), script)) else Erase(s, id))
    ensures forall step | step in steps :: step.Destroy? || Scripted(step, script)
  {
    hide Acted, Kinds, Offers, Leads;
    var t := Resume(s, id);
    steps := [Destroy(id)];
    LeadsOne(s, Destroy(id));
    if s.pending[id].callback {
      ActedFrame(t, script);
      var inner := ActedLeads(t, script);
      LeadsOn(s, steps, t, inner, Acted(t, script));
      LeadsOne(Acted(t, script), Return);
      LeadsOn(s, steps + inner, Acted(t, script), [Return], CallbackDone(Acted(t, script)));
      steps := steps + inner + [Return];
    }
  }

  /** Beside the map of pending commands the manager records what has happened. */
  class Manager {
    var pending: map<Id, CommandData>
    var issued: seq<Issued>
    var log: seq<Resumption>
    var active: seq<Id>
    var closing: bool

    function View(): State
      reads this
    {
      State(pending, issued, log, active, closing)
    }

    constructor ()
      ensures View() == Initial()
    {
      pending, issued, log, active, closing := map[], [], [], [], false;
    }

    /** `IssueCommand`, and the await of its result if that is ready at once. */
    method IssueCommand(r: Request) returns (id: Id)
      modifies this
      ensures View() == DoIssue(old(View()), r)
      ensures id == issued[|old(issued)|].id
      ensures var full := forall i | r.kind <= i < r.kind + BLOCK :: i in old(pending);
        && issued == old(issued) + [Issued(r, id, !full)]
        && (full || !r.accepted ==> id == INVALID_CMD_ID && pending == old(pending))
        && (!full && r.accepted ==>
              && r.kind <= id < r.kind + BLOCK && id !in old(pending)
              && (forall i | r.kind <= i < id :: i in old(pending))
              && pending == old(pending)[id := CommandData(|old(issued)|, r.awaited, INTEROP_FAILURE)])
      ensures INVALID_CMD_ID !in old(pending) && r.kind > INVALID_CMD_ID ==>
        log == old(log) + if id == INVALID_CMD_ID && r.awaited then [Resumption(|old(issued)|, INTEROP_FAILURE)] else []
      ensures active == old(active) && closing == old(closing)
    {
      id := r.kind;
      ghost var left := pending.Keys;
      while id in pending
        invariant id >= r.kind && forall i | r.kind <= i < id :: i in pending
        invariant forall i | i in pending && i >= id :: i in left
        decreases left
      {
        left := left - {id};
        id := id + 1;
      }
      ProbeIs(pending.Keys, r.kind, id);
      var ticket := |issued|;
      if id - r.kind >= BLOCK || !r.accepted {
        var invoked := id - r.kind < BLOCK;
        id := INVALID_CMD_ID;
        if r.awaited {
          log := log + [Resumption(ticket, AwaitResume(View(), id))];
        }
        issued := issued + [Issued(r, id, invoked)];
      } else {
        issued := issued + [Issued(r, id, true)];
        pending := pending[id := CommandData(ticket, r.awaited, INTEROP_FAILURE)];
      }
    }

    /** The coroutine that waits for an id is resumed and does what is in a script. */
    method Callback(id: Id, script: seq<Action>)
      requires id in pending && pending[id].callback
      modifies this
      ensures View() == Acted(Resume(old(View()), id), script)
      decreases script, 0
    {
      hide Submitted, DoIssue, DoSubmit, Erase;
      log := log + [Resumption(pending[id].ticket, AwaitResume(View(), id))];
      active := active + [id];
      var i := 0;
      while i < |script|
        invariant i <= |script|
        invariant Acted(View(), script[i..]) == Acted(Resume(old(View()), id), script)
      {
        assert script[i..][0] == script[i] && script[i..][1..] == script[i + 1..];
        match script[i] {
          case Ask(request) =>
            var _ := IssueCommand(request);
          case Answer(other, response, inner) =>
            if other !in active {
              SubmitResponse(other, response, inner);
            }
        }
        i := i + 1;
      }
    }

    /** `SubmitResponse`, with what the callback does while it runs. */
    method SubmitResponse(id: Id, response: int, script: seq<Action>)
      modifies this
      ensures View() == Submitted(old(View()), id, response, script)
      ensures id !in pending && (id !in old(pending) ==> View() == old(View()))
      ensures id in old(pending) && old(pending)[id].callback ==>
        old(log) + [Resumption(old(pending)[id].ticket, response)] <= log
      ensures old(Good(View()) && id !in active) && Kinds(script) ==> Good(View())
      ensures active == old(active) && closing == old(closing)
      decreases script, 1
    {
      hide Good, Kinds, Acted;
      ghost var before := View();
      SubmittedFrame(before, id, response, script);
      ActedGrows(DoSubmit(before, id, response), script);
      if Good(before) && id !in before.active && Kinds(script) {
        SubmittedKeeps(before, id, response, script);
      }
      if id in pending {
        pending := pending[id := pending[id].(response := response)];
        if pending[id].callback {
          ActedFrame(DoSubmit(before, id, response), script);
          Callback(id, script);
          active := active[..|active| - 1];
        }
        pending := pending - {id};
      }
    }

    /** The destructor; each callback may do what is in a script until the scripts run out. */
    method Destroy(scripts: seq<seq<Action>>)
      requires Good(View()) && active == [] && !closing
      requires forall k | 0 <= k < |scripts| :: Kinds(scripts[k])
      modifies this
      ensures Good(View()) && pending == map[] && active == []
      ensures forall t :: Awaited(View(), t) ==> Times(log, t) == 1
      ensures exists steps :: DestroyedBy(old(View()), steps, scripts, View())
      ensures old(log) <= log
      ensures forall i | |old(log)| <= i < |log| ::
        log[i].value == INTEROP_FAILURE || Offered(scripts, log[i].value)
    {
      hide Good, Kinds, Acted, Leads, Drains, Offered, DestroyedBy;
      BeginKeeps(View());
      ghost var before := View();
      closing := true;
      ghost var begun, steps: seq<Step> := View(), [];
      LeadsNowhere(begun);
      var left: seq<seq<Action>> := scripts;
      while pending != map[]
        invariant Good(View()) && active == [] && closing
        invariant forall k | 0 <= k < |left| :: Kinds(left[k]) && left[k] in scripts
        invariant Leads(begun, steps, View()) && forall step | step in steps :: Drains(step, scripts)
        decreases |left|, pending.Keys
      {
        var id :| id in pending;
        var script := if left == [] then [] else left[0];
        NoKinds();
        DrainKeeps(View(), id, script);
        ghost var turn := TurnLeads(View(), id, script);
        TurnDrains(turn, script, scripts);
        ghost var was := View();
        if pending[id].callback {
          Callback(id, script);
          active := active[..|active| - 1];
          left := if left == [] then [] else left[1..];
        }
        pending := pending - {id};
        LeadsOn(begun, steps, was, turn, View());
        steps := steps + turn;
      }
      AllAnswered(View());
      DestroyLeads(before, steps, scripts, View());
    }
  }

  lemma TurnDrains(turn: seq<Step>, script: seq<Action>, scripts: seq<seq<Action>>)
    requires script == [] || script in scripts
    requires forall step | step in turn :: step.Destroy? || Scripted(step, script)
    ensures forall step | step in turn :: Drains(step, scripts)
  {
    hide Scripted;
    forall step | step in turn
      ensures Drains(step, scripts)
    {
      if script == [] {
        NothingScripted(step);
      } else {
        var k :| 0 <= k < |scripts| && scripts[k] == script;
      }
    }
  }

  lemma NothingScripted(step: Step)
    ensures Scripted(step, []) ==> step.Return?
  {
  }

  /** The values seen during the destruction. */
  lemma DestroyLeads(s: State, steps: seq<Step>, scripts: seq<seq<Action>>, t: State)
    requires Good(s) && s.active == [] && !s.closing && Leads(s.(closing := true), steps, t)
    requires forall step | step in steps :: Drains(step, scripts)
    ensures DestroyedBy(s, steps, scripts, t) && s.log <= t.log
    ensures forall i | |s.log| <= i < |t.log| ::
      t.log[i].value == INTEROP_FAILURE || Offered(scripts, t.log[i].value)
  {
    hide Good, Leads, Drains, Offered;
    LeadsOne(s, BeginDestroy);
    LeadsOn(s, [BeginDestroy], s.(closing := true), steps, t);
    LeadsExplains(s, [BeginDestroy] + steps, t);
    forall i | |s.log| <= i < |t.log| && t.log[i].value != INTEROP_FAILURE
      ensures Offered(scripts, t.log[i].value)
    {
      var step :| step in [BeginDestroy] + steps && step.Submit? && step.response == t.log[i].value;
      SubmitIsOffered(step, scripts);
    }
  }

  lemma SubmitIsOffered(step: Step, scripts: seq<seq<Action>>)
    requires step.Submit? && Drains(step, scripts)
    ensures Offered(scripts, step.response)
  {
  }

  lemma AllAnswered(s: State)
    requires Good(s) && s.pending == map[]
    ensures forall t :: Awaited(s, t) ==> Times(s.log, t) == 1
  {
  }
}
