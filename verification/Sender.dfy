/** Sending messages to one peer: retries, the queue of messages to send again, and several sends at once. */
module Sender {

  const RETRY_COUNT: nat := 5
  const REQUEST_ATTEMPTS: nat := 3

  /** `MAX_BUFFER_SIZE` of the two commands that carry a message. */
  const SHORT_LIMIT: nat := 255
  const LONG_LIMIT: nat := 1023

  datatype Reply = OK | INVALID_STATE | INTEROP_FAILURE | CONNECTION_NOT_FOUND | SOCKET_ERROR

  predicate IsTransient(reply: Reply) {
    reply.INVALID_STATE? || reply.INTEROP_FAILURE?
  }

  datatype Command = SendMessage(text: string) | SendLongMessage(text: string)

  /** A coroutine that waits for the reply to its command, and the replies to this message so far. */
  datatype Attempt = Attempt(message: string, retriesLeft: nat, replies: seq<Reply>)

  datatype Drop = Drop(message: string, replies: seq<Reply>)

  /** The manager of one peer, the coroutines in flight, and a record of what has happened. */
  datatype State = State(
    queued: seq<string>,
    connected: bool,
    inFlight: seq<Attempt>,
    commands: seq<Command>,
    accepted: seq<string>,
    delivered: seq<string>,
    dropped: seq<Drop>,
    toasts: nat,
    renegotiations: nat)

  function Initial(): State {
    State([], true, [], [], [], [], [], 0, 0)
  }

  function CommandFor(message: string): Command {
    if |message| <= SHORT_LIMIT then SendMessage(message) else SendLongMessage(message)
  }

  /** The first command of a send; a message that is too long is refused. */
  function DoSend(s: State, message: string): State {
    if |message| > LONG_LIMIT then s.(toasts := s.toasts + 1)
    else
      s.(accepted := s.accepted + [message],
         inFlight := s.inFlight + [Attempt(message, RETRY_COUNT, [])],
         commands := s.commands + [CommandFor(message)])
  }

  function Without(attempts: seq<Attempt>, k: nat): seq<Attempt>
    requires k < |attempts|
  {
    attempts[..k] + attempts[k + 1..]
  }

  /** The end of the loop body: the command is issued again while retries are left. */
  function Again(s: State, k: nat, a: Attempt): State
    requires k < |s.inFlight| && a.retriesLeft > 0
  {
    if a.retriesLeft > 1 then
      s.(inFlight := s.inFlight[k := a.(retriesLeft := a.retriesLeft - 1)],
         commands := s.commands + [CommandFor(a.message)])
    else
      s.(inFlight := Without(s.inFlight, k), dropped := s.dropped + [Drop(a.message, a.replies)])
  }

  /** A reply reaches one of the coroutines in flight. */
  function DoReply(s: State, k: nat, reply: Reply, isGenerator: bool): State
    requires k < |s.inFlight| && s.inFlight[k].retriesLeft > 0
  {
    var a := s.inFlight[k].(replies := s.inFlight[k].replies + [reply]);
    match reply
    case INVALID_STATE => Again(s, k, a)
    case INTEROP_FAILURE => Again(s, k, a)
    case OK =>
      var sent := s.(connected := true, delivered := s.delivered + [a.message]);
      if s.queued == [] then sent.(inFlight := Without(s.inFlight, k))
      else
        var last := |s.queued| - 1;
        Again(sent.(queued := s.queued[..last]), k, Attempt(s.queued[last], RETRY_COUNT + 1, []))
    case _ =>
      s.(connected := false, queued := s.queued + [a.message], inFlight := Without(s.inFlight, k),
         renegotiations := if isGenerator then s.renegotiations + 1 else s.renegotiations)
  }

  datatype Step =
    | Send(message: string)
    | Answer(k: nat, reply: Reply)
    | ReceptionSuccess
    | ReceptionFailure

  predicate Enabled(s: State, step: Step) {
    step.Answer? ==> step.k < |s.inFlight| && s.inFlight[step.k].retriesLeft > 0
  }

  function Do(s: State, step: Step, isGenerator: bool): State
    requires Enabled(s, step)
  {
    match step
    case Send(message) => DoSend(s, message)
    case Answer(k, reply) => DoReply(s, k, reply, isGenerator)
    case ReceptionSuccess => s.(connected := true)
    case ReceptionFailure =>
      s.(connected := false, renegotiations := if isGenerator then s.renegotiations + 1 else s.renegotiations)
  }

  predicate IsRun(states: seq<State>, steps: seq<Step>, isGenerator: bool) {
    && |states| == |steps| + 1
    && states[0] == Initial()
    && forall k | 0 <= k < |steps| ::
      Enabled(states[k], steps[k]) && states[k + 1] == Do(states[k], steps[k], isGenerator)
  }

  // ----- conservation -----

  function Messages(attempts: seq<Attempt>): seq<string> {
    seq(|attempts|, i requires 0 <= i < |attempts| => attempts[i].message)
  }

  function DroppedMessages(drops: seq<Drop>): seq<string> {
    seq(|drops|, i requires 0 <= i < |drops| => drops[i].message)
  }

  /** The messages delivered, in flight, queued and dropped, with their multiplicities. */
  function Total(s: State): multiset<string> {
    multiset(s.delivered) + multiset(Messages(s.inFlight)) + multiset(s.queued) + multiset(DroppedMessages(s.dropped))
  }

  /** Every accepted message is one of these, as often as it was accepted. */
  predicate Conserved(s: State) {
    multiset(s.accepted) == Total(s)
  }

  predicate AllTransient(replies: seq<Reply>) {
    forall r | r in replies :: IsTransient(r)
  }

  /** Retries count the replies to this message, all of them transient. */
  predicate Counted(a: Attempt) {
    && 0 < a.retriesLeft && a.retriesLeft + |a.replies| == RETRY_COUNT && AllTransient(a.replies)
    && |a.message| <= LONG_LIMIT
  }

  predicate GivenUp(d: Drop) {
    |d.replies| == RETRY_COUNT && AllTransient(d.replies)
  }

  /** The command with the larger buffer is used just when the smaller one would cut the message off. */
  predicate Fits(c: Command) {
    match c
    case SendMessage(text) => |text| <= SHORT_LIMIT
    case SendLongMessage(text) => SHORT_LIMIT < |text| <= LONG_LIMIT
  }

  predicate Good(s: State) {
    Conserved(s) && Sound(s)
  }

  predicate Sound(s: State) {
    && (forall a | a in s.inFlight :: Counted(a))
    && (forall m | m in s.queued :: |m| <= LONG_LIMIT)
    && (forall d | d in s.dropped :: GivenUp(d))
    && (forall c | c in s.commands :: Fits(c))
  }

  lemma MessagesWithout(attempts: seq<Attempt>, k: nat)
    requires k < |attempts|
    ensures multiset(Messages(attempts)) == multiset(Messages(Without(attempts, k))) + multiset{attempts[k].message}
    ensures forall a | a in Without(attempts, k) :: a in attempts
  {
    var all := Messages(attempts);
    assert all == all[..k] + [all[k]] + all[k + 1..];
    assert Messages(Without(attempts, k)) == all[..k] + all[k + 1..];
  }

  lemma MessagesUpdate(attempts: seq<Attempt>, k: nat, a: Attempt)
    requires k < |attempts|
    ensures multiset(Messages(attempts[k := a])) + multiset{attempts[k].message}
         == multiset(Messages(attempts)) + multiset{a.message}
    ensures forall b | b in attempts[k := a] :: b in attempts || b == a
  {
    assert Messages(attempts[k := a]) == Messages(attempts)[k := a.message];
  }

  lemma MessagesAppend(attempts: seq<Attempt>, a: Attempt)
    ensures Messages(attempts + [a]) == Messages(attempts) + [a.message]
  {
  }

  lemma DropsAppend(drops: seq<Drop>, d: Drop)
    ensures DroppedMessages(drops + [d]) == DroppedMessages(drops) + [d.message]
  {
  }

  lemma SendKeeps(s: State, message: string)
    requires Good(s)
    ensures Good(DoSend(s, message))
  {
    hide Total;
    if |message| <= LONG_LIMIT {
      SendTotal(s, message);
    } else {
      ToastTotal(s);
    }
  }

  lemma ToastTotal(s: State)
    ensures Total(s.(toasts := s.toasts + 1)) == Total(s)
  {
  }

  lemma SendTotal(s: State, message: string)
    requires |message| <= LONG_LIMIT
    ensures Total(DoSend(s, message)) == Total(s) + multiset{message}
  {
    hide Messages, DroppedMessages;
    MessagesAppend(s.inFlight, Attempt(message, RETRY_COUNT, []));
    assert multiset(Messages(s.inFlight) + [message]) == multiset(Messages(s.inFlight)) + multiset{message};
  }

  /** The message of an attempt goes on or is dropped; the one it had before leaves it. */
  lemma AgainTotal(s: State, k: nat, a: Attempt)
    requires k < |s.inFlight| && a.retriesLeft > 0
    ensures Total(Again(s, k, a)) + multiset{s.inFlight[k].message} == Total(s) + multiset{a.message}
  {
    hide Messages, DroppedMessages, Without;
    if a.retriesLeft > 1 {
      var next := s.inFlight[k := a.(retriesLeft := a.retriesLeft - 1)];
      MessagesUpdate(s.inFlight, k, a.(retriesLeft := a.retriesLeft - 1));
      var rest := multiset(s.delivered) + multiset(s.queued) + multiset(DroppedMessages(s.dropped));
      assert Total(s) == rest + multiset(Messages(s.inFlight));
      assert Total(Again(s, k, a)) == rest + multiset(Messages(next));
      Exchanged(rest, multiset(Messages(s.inFlight)), multiset(Messages(next)), s.inFlight[k].message, a.message);
    } else {
      MessagesWithout(s.inFlight, k);
      DropsAppend(s.dropped, Drop(a.message, a.replies));
      assert multiset(DroppedMessages(s.dropped) + [a.message])
          == multiset(DroppedMessages(s.dropped)) + multiset{a.message};
    }
  }

  lemma Exchanged(rest: multiset<string>, before: multiset<string>, after: multiset<string>, gone: string, come: string)
    requires after + multiset{gone} == before + multiset{come}
    ensures rest + after + multiset{gone} == rest + before + multiset{come}
  {
    assert rest + after + multiset{gone} == rest + (after + multiset{gone});
    assert rest + before + multiset{come} == rest + (before + multiset{come});
  }

  lemma DeliveredTotal(s: State, t: State, k: nat)
    requires k < |s.inFlight| && t.inFlight == Without(s.inFlight, k) && t.queued == s.queued && t.dropped == s.dropped
    requires t.delivered == s.delivered + [s.inFlight[k].message]
    ensures Total(t) == Total(s)
  {
    hide Messages, DroppedMessages, Without;
    MessagesWithout(s.inFlight, k);
  }

  lemma QueuedTotal(s: State, t: State, k: nat)
    requires k < |s.inFlight| && t.inFlight == Without(s.inFlight, k) && t.delivered == s.delivered
    requires t.dropped == s.dropped && t.queued == s.queued + [s.inFlight[k].message]
    ensures Total(t) == Total(s)
  {
    hide Messages, DroppedMessages, Without;
    MessagesWithout(s.inFlight, k);
  }

  /** A delivered message, and the last of the queue taken out for the next round. */
  lemma NextTotal(s: State, t: State, message: string)
    requires s.queued != [] && t.inFlight == s.inFlight && t.dropped == s.dropped
    requires t.delivered == s.delivered + [message] && t.queued == s.queued[..|s.queued| - 1]
    ensures Total(t) + multiset{s.queued[|s.queued| - 1]} == Total(s) + multiset{message}
  {
    hide Messages, DroppedMessages;
    assert s.queued == s.queued[..|s.queued| - 1] + [s.queued[|s.queued| - 1]];
  }

  lemma AgainSound(s: State, k: nat, a: Attempt)
    requires Sound(s) && k < |s.inFlight|
    requires 0 < a.retriesLeft && a.retriesLeft + |a.replies| == RETRY_COUNT + 1 && AllTransient(a.replies)
    requires |a.message| <= LONG_LIMIT
    ensures Sound(Again(s, k, a))
  {
    hide AllTransient, Without;
    UpdateMembers(s.inFlight, k, a.(retriesLeft := a.retriesLeft - 1));
  }

  lemma UpdateMembers(attempts: seq<Attempt>, k: nat, a: Attempt)
    requires k < |attempts|
    ensures forall b | b in attempts[k := a] :: b in attempts || b == a
    ensures forall b | b in Without(attempts, k) :: b in attempts
  {
  }

  lemma Cancel(a: multiset<string>, b: multiset<string>, m: string)
    requires a + multiset{m} == b + multiset{m}
    ensures a == b
  {
    forall x
      ensures a[x] == b[x]
    {
      assert (a + multiset{m})[x] == (b + multiset{m})[x];
    }
  }

  lemma TransientAppend(replies: seq<Reply>, reply: Reply)
    requires AllTransient(replies) && IsTransient(reply)
    ensures AllTransient(replies + [reply])
  {
  }

  lemma TransientKeeps(s: State, k: nat, reply: Reply)
    requires Good(s) && k < |s.inFlight| && Counted(s.inFlight[k]) && IsTransient(reply)
    ensures Good(Again(s, k, s.inFlight[k].(replies := s.inFlight[k].replies + [reply])))
  {
    hide AllTransient, Sound, Total;
    var a := s.inFlight[k].(replies := s.inFlight[k].replies + [reply]);
    TransientAppend(s.inFlight[k].replies, reply);
    AgainSound(s, k, a);
    AgainTotal(s, k, a);
    Cancel(Total(Again(s, k, a)), Total(s), a.message);
  }

  lemma NextKeeps(s: State, k: nat)
    requires Good(s) && k < |s.inFlight| && s.queued != []
    ensures var last := |s.queued| - 1;
      var sent := s.(connected := true, delivered := s.delivered + [s.inFlight[k].message], queued := s.queued[..last]);
      Good(Again(sent, k, Attempt(s.queued[last], RETRY_COUNT + 1, [])))
  {
    hide Total, Again, AllTransient;
    var last, m := |s.queued| - 1, s.inFlight[k].message;
    var a := Attempt(s.queued[last], RETRY_COUNT + 1, []);
    var sent := s.(connected := true, delivered := s.delivered + [m], queued := s.queued[..last]);
    NoReplies();
    NextTotal(s, sent, m);
    AgainTotal(sent, k, a);
    AgainSound(sent, k, a);
    AgainAccepts(sent, k, a);
    assert Total(Again(sent, k, a)) + multiset{m} == Total(s) + multiset{m};
    Cancel(Total(Again(sent, k, a)), Total(s), m);
  }

  lemma AgainAccepts(s: State, k: nat, a: Attempt)
    requires k < |s.inFlight| && a.retriesLeft > 0
    ensures Again(s, k, a).accepted == s.accepted
  {
  }

  /** A coroutine that ends: its message has been delivered, or goes to the queue. */
  lemma EndKeeps(s: State, t: State, k: nat)
    requires Good(s) && k < |s.inFlight| && Counted(s.inFlight[k]) && t.inFlight == Without(s.inFlight, k)
    requires t.accepted == s.accepted && t.dropped == s.dropped && t.commands == s.commands
    requires (t.queued == s.queued && t.delivered == s.delivered + [s.inFlight[k].message])
          || (t.delivered == s.delivered && t.queued == s.queued + [s.inFlight[k].message])
    ensures Good(t)
  {
    hide Total, AllTransient, Without;
    UpdateMembers(s.inFlight, k, s.inFlight[k]);
    if t.queued == s.queued {
      DeliveredTotal(s, t, k);
    } else {
      QueuedTotal(s, t, k);
    }
  }

  lemma ReplyKeeps(s: State, k: nat, reply: Reply, isGenerator: bool)
    requires Good(s) && k < |s.inFlight|
    ensures s.inFlight[k].retriesLeft > 0 && Good(DoReply(s, k, reply, isGenerator))
  {
    hide Conserved, Without, Again, AllTransient;
    assert s.inFlight[k] in s.inFlight;
    var t := DoReply(s, k, reply, isGenerator);
    if IsTransient(reply) {
      TransientKeeps(s, k, reply);
    } else if reply.OK? && s.queued != [] {
      NextKeeps(s, k);
    } else {
      EndKeeps(s, t, k);
    }
  }

  lemma NoReplies()
    ensures AllTransient([])
  {
  }

  lemma StepKeeps(s: State, step: Step, isGenerator: bool)
    requires Good(s) && Enabled(s, step)
    ensures Good(Do(s, step, isGenerator))
  {
    hide DoSend, DoReply, AllTransient;
    match step
    case Send(message) => SendKeeps(s, message);
    case Answer(k, reply) => ReplyKeeps(s, k, reply, isGenerator);
    case _ =>
  }

  /** Conservation in every run, with any number of sends in flight. */
  lemma {:induction false} RunKeeps(states: seq<State>, steps: seq<Step>, isGenerator: bool, k: nat)
    requires IsRun(states, steps, isGenerator) && k < |states|
    ensures Good(states[k])
  {
    hide Good, Do;
    if k == 0 {
      InitialGood();
    } else {
      RunKeeps(states, steps, isGenerator, k - 1);
      StepKeeps(states[k - 1], steps[k - 1], isGenerator);
      assert states[(k - 1) + 1] == Do(states[k - 1], steps[k - 1], isGenerator);
    }
  }

  lemma InitialGood()
    ensures Good(Initial())
  {
  }

  /** In every run every accepted message is somewhere, and whatever was dropped got five failing replies in a row. */
  lemma NothingIsLost(states: seq<State>, steps: seq<Step>, isGenerator: bool, k: nat, message: string)
    requires IsRun(states, steps, isGenerator) && k < |states|
    ensures var s := states[k];
      multiset(s.accepted)[message] == multiset(s.delivered)[message] + multiset(Messages(s.inFlight))[message]
                                       + multiset(s.queued)[message] + multiset(DroppedMessages(s.dropped))[message]
    ensures forall d | d in states[k].dropped :: |d.replies| == 5 && forall r | r in d.replies :: IsTransient(r)
  {
    RunKeeps(states, steps, isGenerator, k);
  }

  /** The messages dropped by a step: one, and only on the fifth transient reply in a row. */
  lemma DropsOnFifth(s: State, k: nat, reply: Reply, isGenerator: bool)
    requires Good(s) && k < |s.inFlight| && s.inFlight[k].retriesLeft > 0
    ensures DoReply(s, k, reply, isGenerator).dropped != s.dropped
       <==> IsTransient(reply) && |s.inFlight[k].replies| == RETRY_COUNT - 1
  {
    assert s.inFlight[k] in s.inFlight;
    hide AllTransient, Without;
  }

  /** Any reply may come to any of the sends in flight, and messages, successes and failures at any time. */
  lemma AnythingMayHappen(s: State, k: nat, reply: Reply, message: string)
    requires Good(s)
    ensures Enabled(s, Answer(k, reply)) <==> k < |s.inFlight|
    ensures Enabled(s, Send(message)) && Enabled(s, ReceptionSuccess) && Enabled(s, ReceptionFailure)
  {
    if k < |s.inFlight| {
      assert Counted(s.inFlight[k]);
    }
  }

  // ----- what the steps of a run amount to -----

  predicate IsBroken(reply: Reply) {
    reply.CONNECTION_NOT_FOUND? || reply.SOCKET_ERROR?
  }

  /** The step finds the connection to the peer broken. */
  predicate Breaks(step: Step) {
    step.ReceptionFailure? || (step.Answer? && IsBroken(step.reply))
  }

  /** The step shows that the connection is alive. */
  predicate Proves(step: Step) {
    step.ReceptionSuccess? || (step.Answer? && step.reply == OK)
  }

  predicate TooLong(step: Step) {
    step.Send? && |step.message| > LONG_LIMIT
  }

  function Count(steps: seq<Step>, k: nat, p: Step -> bool): nat
    requires k <= |steps|
  {
    if k == 0 then 0 else Count(steps, k - 1, p) + if p(steps[k - 1]) then 1 else 0
  }

  /** A new negotiation is asked for just when the connection is found broken, and only to the generator. */
  lemma {:induction false} RenegotiatesOnBreak(states: seq<State>, steps: seq<Step>, isGenerator: bool, k: nat)
    requires IsRun(states, steps, isGenerator) && k < |states|
    ensures states[k].renegotiations == if isGenerator then Count(steps, k, Breaks) else 0
    ensures states[k].toasts == Count(steps, k, TooLong)
    decreases k
  {
    if k > 0 {
      RenegotiatesOnBreak(states, steps, isGenerator, k - 1);
      StepCounts(states[k - 1], steps[k - 1], isGenerator);
      assert states[(k - 1) + 1] == Do(states[k - 1], steps[k - 1], isGenerator);
    }
  }

  lemma StepCounts(s: State, step: Step, isGenerator: bool)
    requires Enabled(s, step)
    ensures var t := Do(s, step, isGenerator);
      && t.renegotiations == s.renegotiations + (if isGenerator && Breaks(step) then 1 else 0)
      && t.toasts == s.toasts + (if TooLong(step) then 1 else 0)
      && t.connected == if Breaks(step) then false else if Proves(step) then true else s.connected
  {
  }

  /** A step behind step `i` shows the connection alive. */
  predicate Mended(steps: seq<Step>, i: nat, k: nat)
    requires k <= |steps|
  {
    exists j :: i < j < k && Proves(steps[j])
  }

  predicate NothingBroken(steps: seq<Step>, k: nat)
    requires k <= |steps|
  {
    forall i | 0 <= i < k && Breaks(steps[i]) :: Mended(steps, i, k)
  }

  lemma BrokenNext(steps: seq<Step>, k: nat)
    requires 0 < k <= |steps|
    ensures NothingBroken(steps, k)
       <==> if Breaks(steps[k - 1]) then false else if Proves(steps[k - 1]) then true else NothingBroken(steps, k - 1)
  {
    var last := steps[k - 1];
    forall i: nat | i < k - 1
      ensures Mended(steps, i, k) <==> Proves(last) || Mended(steps, i, k - 1)
    {
      if Mended(steps, i, k) {
        var j :| i < j < k && Proves(steps[j]);
        assert j == k - 1 || Mended(steps, i, k - 1);
      }
    }
    assert !Mended(steps, k - 1, k);
  }

  /** The peer counts as connected just if every break was followed by a step that shows the connection alive. */
  lemma {:induction false} ConnectedUnlessBroken(states: seq<State>, steps: seq<Step>, isGenerator: bool, k: nat)
    requires IsRun(states, steps, isGenerator) && k < |states|
    ensures states[k].connected <==> NothingBroken(steps, k)
    decreases k
  {
    hide Do, Breaks, Proves, TooLong;
    if k > 0 {
      ConnectedUnlessBroken(states, steps, isGenerator, k - 1);
      StepCounts(states[k - 1], steps[k - 1], isGenerator);
      BrokenNext(steps, k);
      assert states[(k - 1) + 1] == Do(states[k - 1], steps[k - 1], isGenerator);
    }
  }

  function TextOf(c: Command): string {
    match c
    case SendMessage(text) => text
    case SendLongMessage(text) => text
  }

  /**
   Every message in flight has a command of its own under way: a send issues one, and a reply is followed by one
   just if its coroutine goes on, carrying the message it goes on with.
   */
  lemma CommandsFollow(s: State, step: Step, isGenerator: bool)
    requires Enabled(s, step)
    ensures var t := Do(s, step, isGenerator);
      if step.Send? && |step.message| <= LONG_LIMIT then
        |t.inFlight| == |s.inFlight| + 1 && t.inFlight[|s.inFlight|].message == step.message
        && |t.commands| == |s.commands| + 1 && s.commands <= t.commands && TextOf(t.commands[|s.commands|]) == step.message
      else if step.Answer? && |t.inFlight| == |s.inFlight| then
        |t.commands| == |s.commands| + 1 && s.commands <= t.commands
        && TextOf(t.commands[|s.commands|]) == t.inFlight[step.k].message
        && (step.reply != OK ==> t.inFlight[step.k].message == s.inFlight[step.k].message)
        && forall i | 0 <= i < |s.inFlight| && i != step.k :: t.inFlight[i] == s.inFlight[i]
      else
        t.commands == s.commands && (!step.Answer? ==> t.inFlight == s.inFlight)
  {
  }

  // ----- one send alone -----

  /** A single send from its first command on; `reply` gives the reply to each command in turn. */
  ghost function Finish(s: State, reply: nat -> Reply, n: nat, isGenerator: bool): State
    decreases |s.inFlight|, |s.queued|, if |s.inFlight| == 1 then s.inFlight[0].retriesLeft else 0
  {
    if |s.inFlight| != 1 || s.inFlight[0].retriesLeft == 0 then s
    else Finish(DoReply(s, 0, reply(n), isGenerator), reply, n + 1, isGenerator)
  }

  /** A send alone comes to an end, whatever the replies. */
  lemma {:induction false} Finishes(s: State, reply: nat -> Reply, n: nat, isGenerator: bool)
    requires Good(s) && |s.inFlight| <= 1
    ensures Good(Finish(s, reply, n, isGenerator)) && Finish(s, reply, n, isGenerator).inFlight == []
    ensures |Finish(s, reply, n, isGenerator).commands| <= |s.commands| + CommandsLeft(s)
    decreases |s.inFlight|, |s.queued|, if |s.inFlight| == 1 then s.inFlight[0].retriesLeft else 0
  {
    hide Good;
    if |s.inFlight| == 1 {
      InFlightCounted(s);
      var t := DoReply(s, 0, reply(n), isGenerator);
      ReplyKeeps(s, 0, reply(n), isGenerator);
      OneCommand(s, reply(n), isGenerator);
      Finishes(t, reply, n + 1, isGenerator);
    }
  }

  lemma InFlightCounted(s: State)
    requires Good(s) && |s.inFlight| == 1
    ensures 0 < s.inFlight[0].retriesLeft <= RETRY_COUNT
  {
    assert s.inFlight[0] in s.inFlight;
  }

  /** At most five commands for every queued message, and those left for the one in flight. */
  function CommandsLeft(s: State): nat {
    if |s.inFlight| == 1 && s.inFlight[0].retriesLeft > 0
    then s.inFlight[0].retriesLeft - 1 + RETRY_COUNT * |s.queued|
    else 0
  }

  lemma OneCommand(s: State, reply: Reply, isGenerator: bool)
    requires |s.inFlight| == 1 && 0 < s.inFlight[0].retriesLeft <= RETRY_COUNT
    ensures var t := DoReply(s, 0, reply, isGenerator);
      |t.inFlight| <= 1 && |t.commands| + CommandsLeft(t) <= |s.commands| + CommandsLeft(s)
  {
  }

  /** One send issues at most five commands for its message and for each message that was queued. */
  lemma CommandBound(s: State, message: string, reply: nat -> Reply, isGenerator: bool)
    requires Good(s) && s.inFlight == []
    ensures |Finish(DoSend(s, message), reply, 0, isGenerator).commands|
         <= |s.commands| + RETRY_COUNT * (1 + |s.queued|)
  {
    hide Good;
    SendKeeps(s, message);
    Finishes(DoSend(s, message), reply, 0, isGenerator);
  }

  function Reversed(messages: seq<string>): seq<string> {
    if messages == [] then [] else [messages[|messages| - 1]] + Reversed(messages[..|messages| - 1])
  }

  /** When the peer takes everything, the queue goes out after the message, the last queued first. */
  lemma {:induction false} LastInFirstOut(s: State, reply: nat -> Reply, n: nat, isGenerator: bool)
    requires Good(s) && |s.inFlight| == 1 && forall k :: reply(k) == OK
    ensures var t := Finish(s, reply, n, isGenerator);
      t.delivered == s.delivered + [s.inFlight[0].message] + Reversed(s.queued)
      && t.queued == [] && t.inFlight == [] && t.connected && t.dropped == s.dropped
    decreases |s.queued|
  {
    hide Good;
    InFlightCounted(s);
    ReplyKeeps(s, 0, OK, isGenerator);
    var t := DoReply(s, 0, OK, isGenerator);
    if s.queued != [] {
      LastInFirstOut(t, reply, n + 1, isGenerator);
    }
  }

  /** A peer that cannot be reached costs one command: the message goes to the queue, the last one to be sent first. */
  lemma UnreachableQueues(s: State, message: string, reply: nat -> Reply, isGenerator: bool)
    requires s.inFlight == [] && |message| <= LONG_LIMIT
    requires reply(0) == CONNECTION_NOT_FOUND || reply(0) == SOCKET_ERROR
    ensures var t := Finish(DoSend(s, message), reply, 0, isGenerator);
      t.queued == s.queued + [message] && !t.connected && t.commands == s.commands + [CommandFor(message)]
      && t.delivered == s.delivered && t.dropped == s.dropped && t.inFlight == []
  {
    var start := DoSend(s, message);
    var t := DoReply(start, 0, reply(0), isGenerator);
    assert t.inFlight == [];
    assert Finish(t, reply, 1, isGenerator) == t;
  }

  lemma FinishTurn(s: State, reply: nat -> Reply, n: nat, isGenerator: bool)
    ensures |s.inFlight| != 1 ==> Finish(s, reply, n, isGenerator) == s
    ensures |s.inFlight| == 1 && s.inFlight[0].retriesLeft > 0 ==>
      Finish(s, reply, n, isGenerator) == Finish(DoReply(s, 0, reply(n), isGenerator), reply, n + 1, isGenerator)
  {
  }

  lemma {:induction false} FinishAccepts(s: State, reply: nat -> Reply, n: nat, isGenerator: bool)
    ensures Finish(s, reply, n, isGenerator).accepted == s.accepted
    ensures Finish(s, reply, n, isGenerator).toasts == s.toasts
    decreases |s.inFlight|, |s.queued|, if |s.inFlight| == 1 then s.inFlight[0].retriesLeft else 0
  {
    if |s.inFlight| == 1 && s.inFlight[0].retriesLeft > 0 {
      FinishAccepts(DoReply(s, 0, reply(n), isGenerator), reply, n + 1, isGenerator);
    }
  }

  /** A send alone between two turns of its loop; `issued` are the commands answered so far. */
  ghost predicate Between(s: State, issued: seq<Command>, text: string, retriesLeft: nat, replies: seq<Reply>) {
    if retriesLeft == 0 then s.inFlight == [] && s.commands == issued
    else s.inFlight == [Attempt(text, retriesLeft, replies)] && s.commands == issued + [CommandFor(text)]
  }

  lemma TransientTurn(s: State, issued: seq<Command>, text: string, retriesLeft: nat, replies: seq<Reply>, r: Reply,
                      isGenerator: bool)
    requires retriesLeft > 0 && Between(s, issued, text, retriesLeft, replies) && IsTransient(r)
    ensures |s.inFlight| == 1 && s.inFlight[0].retriesLeft > 0
    ensures var t := DoReply(s, 0, r, isGenerator);
      Between(t, issued + [CommandFor(text)], text, retriesLeft - 1, replies + [r])
      && t.queued == s.queued && t.connected == s.connected
  {
  }

  lemma NextTurn(s: State, issued: seq<Command>, text: string, retriesLeft: nat, replies: seq<Reply>, isGenerator: bool)
    requires retriesLeft > 0 && Between(s, issued, text, retriesLeft, replies) && s.queued != []
    ensures |s.inFlight| == 1 && s.inFlight[0].retriesLeft > 0
    ensures var t := DoReply(s, 0, OK, isGenerator);
      Between(t, issued + [CommandFor(text)], s.queued[|s.queued| - 1], RETRY_COUNT, [])
      && t.queued == s.queued[..|s.queued| - 1] && t.connected
  {
  }

  lemma LastTurn(s: State, issued: seq<Command>, text: string, retriesLeft: nat, replies: seq<Reply>, r: Reply,
                 isGenerator: bool)
    requires retriesLeft > 0 && Between(s, issued, text, retriesLeft, replies)
    requires !IsTransient(r) && (r == OK ==> s.queued == [])
    ensures |s.inFlight| == 1 && s.inFlight[0].retriesLeft > 0
    ensures var t := DoReply(s, 0, r, isGenerator);
      t.inFlight == [] && t.commands == issued + [CommandFor(text)] && t.connected == (r == OK)
      && t.queued == if r == OK then [] else s.queued + [text]
  {
  }

  lemma SendStarts(s: State, message: string)
    requires s.inFlight == []
    ensures DoSend(s, message).queued == s.queued && DoSend(s, message).connected == s.connected
    ensures if |message| > LONG_LIMIT then DoSend(s, message).inFlight == [] && DoSend(s, message).commands == s.commands
            else Between(DoSend(s, message), s.commands + [], message, RETRY_COUNT, [])
  {
    assert s.commands + [] == s.commands;
  }

  lemma CommandIs(text: string)
    ensures CommandFor(text) == if |text| <= SHORT_LIMIT then SendMessage(text) else SendLongMessage(text)
  {
  }

  lemma Underway(s: State, issued: seq<Command>, text: string, retriesLeft: nat, replies: seq<Reply>)
    requires Between(s, issued, text, retriesLeft, replies)
    ensures retriesLeft > 0 ==> |s.inFlight| == 1 && s.inFlight[0].retriesLeft > 0
    ensures retriesLeft == 0 ==> s.inFlight == [] && s.commands == issued
  {
  }

  // ----- the manager of a peer -----

  class RemotePeerManager {
    const isGenerator: bool
    var queued: seq<string>
    var connected: bool
    ghost var record: State

    ghost predicate Valid()
      reads this
    {
      && record.queued == queued && record.connected == connected && record.inFlight == [] && Good(record)
    }

    constructor (isGenerator: bool)
      ensures Valid() && record == Initial() && this.isGenerator == isGenerator
    {
      this.isGenerator := isGenerator;
      queued, connected, record := [], true, Initial();
      new;
      InitialGood();
    }

    /** `Send` with no other send in flight; `reply` is what comes back for each command. */
    method Send(message: string, reply: nat -> Reply) returns (commands: seq<Command>)
      requires Valid()
      modifies this
      ensures Valid()
      ensures record == Finish(DoSend(old(record), message), reply, 0, isGenerator)
      ensures record.commands == old(record).commands + commands
      ensures |commands| <= RETRY_COUNT * (1 + |old(queued)|)
    {
      hide Good, Finish, DoReply, DoSend, Between, CommandFor;
      commands := [];
      ghost var goal := Finish(DoSend(record, message), reply, 0, isGenerator);
      SendKeeps(record, message);
      CommandBound(record, message, reply, isGenerator);
      ghost var before := record.commands;
      SendStarts(record, message);
      record := DoSend(record, message);
      FinishTurn(record, reply, 0, isGenerator);
      assert before + [] == before;
      if |message| > LONG_LIMIT {
        return;
      }
      var text, retriesLeft: nat := message, RETRY_COUNT;
      ghost var replies: seq<Reply> := [];
      while retriesLeft > 0
        invariant Good(record) && record.queued == queued && record.connected == connected
        invariant retriesLeft <= RETRY_COUNT && Between(record, before + commands, text, retriesLeft, replies)
        invariant goal == Finish(record, reply, |commands|, isGenerator)
        decreases |queued|, retriesLeft
      {
        var r := reply(|commands|);
        ghost var was, issued := record, before + commands;
        Underway(was, issued, text, retriesLeft, replies);
        ReplyKeeps(was, 0, r, isGenerator);
        FinishTurn(was, reply, |commands|, isGenerator);
        record := DoReply(record, 0, r, isGenerator);
        FinishTurn(record, reply, |commands| + 1, isGenerator);
        commands := commands + [if |text| <= SHORT_LIMIT then SendMessage(text) else SendLongMessage(text)];
        CommandIs(text);
        assert before + commands == issued + [CommandFor(text)];
        if r == OK {
          connected := true;
          if queued == [] {
            LastTurn(was, issued, text, retriesLeft, replies, r, isGenerator);
            return;
          }
          NextTurn(was, issued, text, retriesLeft, replies, isGenerator);
          text := queued[|queued| - 1];
          queued := queued[..|queued| - 1];
          retriesLeft, replies := RETRY_COUNT + 1, [];
        } else if r == INVALID_STATE || r == INTEROP_FAILURE {
          TransientTurn(was, issued, text, retriesLeft, replies, r, isGenerator);
          replies := replies + [r];
        } else {
          LastTurn(was, issued, text, retriesLeft, replies, r, isGenerator);
          connected := false;
          queued := queued + [text];
          return;
        }
        retriesLeft := retriesLeft - 1;
      }
      Underway(record, before + commands, text, retriesLeft, replies);
      FinishTurn(record, reply, |commands|, isGenerator);
    }

    /**
     The request is sent up to three times, until an answer has come within a second; without one the
     peers negotiate again.
     */
    method SendRequestToGenerator(request: string, replies: seq<nat -> Reply>, answered: seq<bool>)
      returns (attempts: nat, renegotiate: bool)
      requires Valid() && |replies| == |answered| == REQUEST_ATTEMPTS
      modifies this
      ensures Valid() && 1 <= attempts <= REQUEST_ATTEMPTS
      ensures renegotiate <==> true !in answered
      ensures forall i | 0 <= i < attempts - 1 :: !answered[i]
      ensures attempts < REQUEST_ATTEMPTS ==> answered[attempts - 1]
      ensures record.accepted == old(record).accepted + Copies(request, attempts)
    {
      hide Good, Finish;
      attempts := 0;
      while attempts < REQUEST_ATTEMPTS
        invariant attempts <= REQUEST_ATTEMPTS && Valid() && true !in answered[..attempts]
        invariant record.accepted == old(record).accepted + Copies(request, attempts)
      {
        FinishAccepts(DoSend(record, request), replies[attempts], 0, isGenerator);
        var _ := Send(request, replies[attempts]);
        attempts := attempts + 1;
        assert answered[..attempts] == answered[..attempts - 1] + [answered[attempts - 1]];
        if answered[attempts - 1] {
          return attempts, false;
        }
      }
      assert answered[..attempts] == answered;
      renegotiate := true;
    }
  }

  /** What a number of sends of a message adds to the accepted messages. */
  function Copies(message: string, count: nat): seq<string> {
    if |message| > LONG_LIMIT then [] else seq(count, _ => message)
  }
}
