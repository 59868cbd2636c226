/**
 Several peers with the same membership negotiating over a network that may lose, duplicate and reorder the
 offers of this session. Every offer once sent stays available and may arrive any number of times or never.
 */
module Agreement {
  import opened Macs
  import opened Text
  import opened Decimal
  import opened Negotiation
  import Messages
  import MessageRoundTrip

  datatype Phase =
    | Waiting(globalRound: nat)
    | Negotiating(node: Node)
    | Playing(generator: Mac, round: nat)

  datatype Packet = Packet(sender: Mac, offer: Ballot)

  /** The phases of all members and every offer broadcast so far. */
  datatype State = State(phases: map<Mac, Phase>, sent: set<Packet>)

  datatype Step =
    | Begin(member: Mac)
    | Deliver(member: Mac, packet: Packet)
    | Check(member: Mac)

  /** The other members are a peer's peers. */
  function Peers(s: State, member: Mac): set<Mac> {
    s.phases.Keys - {member}
  }

  predicate Enabled(s: State, step: Step) {
    && step.member in s.phases
    && match step
       case Begin(member) => s.phases[member].Waiting?
       case Deliver(member, packet) => packet in s.sent && packet.sender != member && s.phases[member].Negotiating?
       case Check(member) => s.phases[member].Negotiating? && member in s.phases[member].node.offers
                             && s.phases[member].node.localMac == member
  }

  ghost function Do(s: State, step: Step): State
    requires Enabled(s, step)
  {
    var member := step.member;
    match step
    case Begin(_) =>
      s.(phases := s.phases[member := Negotiating(Started(s.phases[member].globalRound, Peers(s, member), member))])
    case Deliver(_, packet) =>
      s.(phases := s.phases[member := Negotiating(Receive(s.phases[member].node, packet.sender, packet.offer))])
    case Check(_) =>
      var n := s.phases[member].node;
      if AllEqual(n) then
        s.(phases := s.phases[member := Playing(n.offers[member].mac, n.offers[member].round)])
      else
        State(s.phases[member := Negotiating(Updated(n))],
              s.sent + {Packet(member, Updated(n).offers[member])})
  }

  predicate Initial(s: State) {
    s.sent == {} && forall m | m in s.phases :: s.phases[m].Waiting?
  }

  /** A run: an initial state and steps that lead from each state to the next. */
  ghost predicate IsRun(states: seq<State>, steps: seq<Step>) {
    && |states| == |steps| + 1
    && Initial(states[0])
    && forall k | 0 <= k < |steps| :: Enabled(states[k], steps[k]) && states[k + 1] == Do(states[k], steps[k])
  }

  type Starts = map<Mac, nat>

  /** The round each member starts with: the constructor counts the global round up by one. */
  function StartsOf(s: State): Starts {
    map m | m in s.phases && s.phases[m].Waiting? :: (s.phases[m].globalRound + 1) % UINT32_RANGE
  }

  /** An own offer is never mistaken for an empty one: no address is empty, or no counter wraps to zero. */
  predicate Distinct(starts: Starts) {
    "" !in starts || forall m | m in starts :: starts[m] > 0
  }

  predicate AllSame(starts: Starts) {
    forall a, b | a in starts && b in starts :: starts[a] == starts[b]
  }

  predicate IsLargest(starts: Starts, round: nat) {
    round in starts.Values && forall m | m in starts :: starts[m] <= round
  }

  // ----- the invariant -----

  /** A round that a member may send: some member started with it, and not below its own start. */
  predicate Credible(starts: Starts, member: Mac, round: nat) {
    member in starts && starts[member] <= round && round in starts.Values
  }

  /** The member has sent an offer for this round. */
  ghost predicate Said(sent: set<Packet>, member: Mac, round: nat) {
    exists p :: p in sent && p.sender == member && p.offer.round == round
  }

  ghost predicate GoodNode(starts: Starts, sent: set<Packet>, member: Mac, n: Node) {
    && member in starts && n.localMac == member && n.peers == starts.Keys - {member}
    && Consistent(n)
    && Credible(starts, member, n.round)
    && n.offers[member] == Ballot(Nominee(starts.Keys, n.round), n.round)
    && forall m | m in n.peers :: n.offers[m] == NO_OFFER || Said(sent, m, n.offers[m].round)
  }

  /** Everybody else has said the round, or nobody was heard and the empty offers were taken for agreement. */
  ghost predicate GoodDecision(starts: Starts, sent: set<Packet>, member: Mac, round: nat) {
    || (round == 0 && "" in starts)
    || forall m | m in starts && m != member :: Said(sent, m, round)
  }

  ghost predicate GoodPhase(starts: Starts, sent: set<Packet>, member: Mac, phase: Phase)
    requires member in starts
  {
    match phase
    case Waiting(globalRound) => (globalRound + 1) % UINT32_RANGE == starts[member]
    case Negotiating(n) => GoodNode(starts, sent, member, n)
    case Playing(generator, round) =>
      generator == Nominee(starts.Keys, round) && Credible(starts, member, round)
      && GoodDecision(starts, sent, member, round)
  }

  /** The sender of an offer stands at its round or above it. */
  predicate Reached(phase: Phase, round: nat) {
    match phase
    case Waiting(_) => false
    case Negotiating(n) => n.round >= round
    case Playing(_, decided) => decided >= round
  }

  /** Offers are credible, and none of them looks like an empty one. */
  ghost predicate GoodPacket(s: State, starts: Starts, p: Packet) {
    && Credible(starts, p.sender, p.offer.round) && ("" in starts ==> p.offer.round > 0)
    && p.sender in s.phases && Reached(s.phases[p.sender], p.offer.round)
  }

  ghost predicate Invariant(s: State, starts: Starts) {
    && s.phases.Keys == starts.Keys
    && (forall m | m in s.phases :: GoodPhase(starts, s.sent, m, s.phases[m]))
    && (forall p | p in s.sent :: GoodPacket(s, starts, p))
  }

  // ----- what each step does -----

  lemma StartGood(starts: Starts, sent: set<Packet>, member: Mac, globalRound: nat)
    requires member in starts && (globalRound + 1) % UINT32_RANGE == starts[member]
    ensures GoodNode(starts, sent, member, Started(globalRound, starts.Keys - {member}, member))
    ensures Started(globalRound, starts.Keys - {member}, member).round == starts[member]
  {
    var peers := starts.Keys - {member};
    assert peers + {member} == starts.Keys;
    assert starts[member] in starts.Values;
  }

  lemma ArrivalKeepsRound(offer: Ballot)
    ensures Arrived(offer).Some? ==> Arrived(offer).value.round == offer.round
  {
  }

  lemma ReceiveGood(starts: Starts, sent: set<Packet>, member: Mac, n: Node, p: Packet)
    requires GoodNode(starts, sent, member, n) && p.sender != member && p in sent
    ensures GoodNode(starts, sent, member, Receive(n, p.sender, p.offer))
    ensures Receive(n, p.sender, p.offer).round == n.round
  {
    hide Arrived, Nominee, Credible;
    ArrivalKeepsRound(p.offer);
    assert Said(sent, p.sender, p.offer.round);
  }

  /** With an empty address among the members the nominee of round zero has it. */
  lemma EmptyNominee(members: set<Mac>)
    requires "" in members
    ensures Nominee(members, 0) == ""
  {
    assert IsLeast(members, "");
    LeastIsUnique(members, "", Least(members));
  }

  /** Updating adopts a round some member started with and nominates by it. */
  lemma UpdateGood(s: State, starts: Starts, member: Mac, n: Node)
    requires Invariant(s, starts) && GoodNode(starts, s.sent, member, n)
    ensures n.offers != map[] && GoodNode(starts, s.sent, member, Updated(n))
    ensures Updated(n).offers[member].round == Updated(n).round >= n.round
  {
    hide Nominee, GoodPhase, Reached;
    assert n.offers.Keys == starts.Keys;
    assert member in n.offers;
    var round := MaxRound(n);
    if round != n.round {
      var m :| m in n.offers && round == n.offers[m].round;
      assert m in n.peers && n.offers[m] != NO_OFFER;
      SaidMeans(s, starts, m, round);
    }
  }

  /** Who has said a round has reached it. */
  lemma SaidMeans(s: State, starts: Starts, member: Mac, round: nat)
    requires Invariant(s, starts) && Said(s.sent, member, round)
    ensures member in s.phases && Reached(s.phases[member], round) && Credible(starts, member, round)
    ensures "" in starts ==> round > 0
  {
    hide GoodPhase, Credible, Reached;
    var p :| p in s.sent && p.sender == member && p.offer.round == round;
    assert GoodPacket(s, starts, p);
  }

  /** An undecided member that stands at round zero with an empty nominee has heard of a higher round. */
  lemma UpdateSpeaksUp(s: State, starts: Starts, member: Mac, n: Node)
    requires Invariant(s, starts) && GoodNode(starts, s.sent, member, n) && "" in starts
    requires member in n.offers && !AllEqual(n)
    ensures Updated(n).round > 0
  {
    hide Nominee, GoodPhase, Reached, Credible;
    assert n.offers.Keys == starts.Keys;
    if Updated(n).round == 0 {
      EmptyNominee(starts.Keys);
      assert n.offers[member] == NO_OFFER;
      forall m | m in n.offers
        ensures n.offers[m] == NO_OFFER
      {
        if m != member && n.offers[m] != NO_OFFER {
          SaidMeans(s, starts, m, n.offers[m].round);
        }
      }
    }
  }

  lemma NomineeIsMember(members: set<Mac>, round: nat)
    requires members != {}
    ensures Nominee(members, round) in members
  {
    SortedKeysAscend(members);
    assert SortedKeys(members)[round % |members|] in SortedKeys(members);
  }

  /** A member that finds all offers equal has heard its round from everybody, unless that looks like nothing. */
  lemma DecisionGood(starts: Starts, sent: set<Packet>, member: Mac, n: Node)
    requires GoodNode(starts, sent, member, n) && AllEqual(n)
    ensures n.offers[member].mac == Nominee(starts.Keys, n.round) && n.offers[member].round == n.round
    ensures GoodDecision(starts, sent, member, n.round)
  {
    hide Nominee, Credible;
    NomineeIsMember(starts.Keys, n.round);
    forall m | m in starts && m != member && !(n.round == 0 && "" in starts)
      ensures Said(sent, m, n.round)
    {
      assert m in n.peers && n.offers[m] == n.offers[member] != NO_OFFER;
    }
  }

  lemma SaidGrows(starts: Starts, sent: set<Packet>, more: set<Packet>, member: Mac, phase: Phase)
    requires member in starts && GoodPhase(starts, sent, member, phase) && sent <= more
    ensures GoodPhase(starts, more, member, phase)
  {
    hide Nominee, Credible;
    forall m, round | Said(sent, m, round)
      ensures Said(more, m, round)
    {
      var p :| p in sent && p.sender == m && p.offer.round == round;
      assert p in more;
    }
  }

  lemma StepKeeps(s: State, starts: Starts, step: Step)
    requires Invariant(s, starts) && Enabled(s, step)
    ensures Invariant(Do(s, step), starts)
  {
    hide GoodNode, GoodDecision, Nominee, Started, Receive, Updated, Credible, AllEqual;
    var member := step.member;
    match step
    case Begin(_) => StartGood(starts, s.sent, member, s.phases[member].globalRound);
    case Deliver(_, p) => ReceiveGood(starts, s.sent, member, s.phases[member].node, p);
    case Check(_) =>
      var n := s.phases[member].node;
      if AllEqual(n) {
        DecisionGood(starts, s.sent, member, n);
        NodeIsCredible(starts, s.sent, member, n);
      } else {
        CheckKeeps(s, starts, member, n);
      }
  }

  lemma NodeIsCredible(starts: Starts, sent: set<Packet>, member: Mac, n: Node)
    requires GoodNode(starts, sent, member, n)
    ensures Credible(starts, member, n.round)
  {
  }

  lemma CheckKeeps(s: State, starts: Starts, member: Mac, n: Node)
    requires Invariant(s, starts) && Enabled(s, Check(member)) && s.phases[member] == Negotiating(n) && !AllEqual(n)
    ensures Invariant(Do(s, Check(member)), starts)
  {
    hide GoodNode, GoodDecision, Nominee, Updated, Credible, AllEqual;
    var t := Do(s, Check(member));
    UpdateGood(s, starts, member, n);
    NodeIsCredible(starts, s.sent, member, Updated(n));
    if "" in starts {
      UpdateSpeaksUp(s, starts, member, n);
    }
    forall m | m in t.phases
      ensures GoodPhase(starts, t.sent, m, t.phases[m])
    {
      SaidGrows(starts, s.sent, t.sent, m, t.phases[m]);
    }
    forall p | p in t.sent
      ensures GoodPacket(t, starts, p)
    {
      if p in s.sent {
        assert GoodPacket(s, starts, p);
      }
    }
  }

  /** Nothing is ruled out: members begin and check at any time, and any offer sent may arrive again and again. */
  lemma AnythingMayHappen(s: State, starts: Starts, m: Mac)
    requires Invariant(s, starts) && m in s.phases
    ensures Enabled(s, Begin(m)) <==> s.phases[m].Waiting?
    ensures Enabled(s, Check(m)) <==> s.phases[m].Negotiating?
    ensures s.phases[m].Negotiating? ==>
      forall p | p in s.sent && p.sender != m ::
        Enabled(s, Deliver(m, p)) && p in Do(s, Deliver(m, p)).sent
  {
    hide Nominee, Credible, Said, GoodPacket, Receive;
    assert GoodPhase(starts, s.sent, m, s.phases[m]);
  }

  // ----- every run -----

  lemma {:induction false} RunKeeps(states: seq<State>, steps: seq<Step>, k: nat)
    requires IsRun(states, steps) && k < |states|
    ensures Invariant(states[k], StartsOf(states[0]))
  {
    hide GoodNode, Nominee, Started, Receive, Updated, Credible, Do;
    var starts := StartsOf(states[0]);
    if k == 0 {
      assert states[0].phases.Keys == starts.Keys;
    } else {
      RunKeeps(states, steps, k - 1);
      StepKeeps(states[k - 1], starts, steps[k - 1]);
      assert states[k] == Do(states[k - 1], steps[k - 1]) by {
        assert states[(k - 1) + 1] == Do(states[k - 1], steps[k - 1]);
      }
    }
  }

  /** A round that everybody has said is the largest start. */
  lemma SaidByAll(s: State, starts: Starts, member: Mac, round: nat)
    requires Invariant(s, starts) && Credible(starts, member, round)
    requires forall m | m in starts && m != member :: Said(s.sent, m, round)
    ensures IsLargest(starts, round)
  {
    hide GoodPhase, Reached;
    forall m | m in starts
      ensures starts[m] <= round
    {
      if m != member {
        assert Said(s.sent, m, round);
        SaidMeans(s, starts, m, round);
      }
    }
  }

  /**
   Who plays has chosen the member that stands at the index of its round, and the largest starting round,
   unless it started at zero among members of which one has an empty address.
   */
  lemma DecidedRound(states: seq<State>, steps: seq<Step>, k: nat, member: Mac)
    requires IsRun(states, steps) && k < |states|
    requires member in states[k].phases && states[k].phases[member].Playing?
    ensures states[k].phases.Keys == states[0].phases.Keys
    ensures states[k].phases[member].generator
         == Nominee(states[0].phases.Keys, states[k].phases[member].round)
    ensures var members := states[0].phases.Keys;
      states[k].phases[member].generator in members
      && Rank(members, states[k].phases[member].generator) == states[k].phases[member].round % |members|
    ensures var starts, round := StartsOf(states[0]), states[k].phases[member].round;
      IsLargest(starts, round) || (round == 0 && "" in starts && Credible(starts, member, 0))
  {
    hide Nominee, Do, Said, GoodPacket;
    RunKeeps(states, steps, k);
    var starts, round := StartsOf(states[0]), states[k].phases[member].round;
    assert starts.Keys == states[0].phases.Keys;
    NomineeRank(starts.Keys, round);
    assert GoodPhase(starts, states[k].sent, member, states[k].phases[member]);
    if !(round == 0 && "" in starts) {
      SaidByAll(states[k], starts, member, round);
    }
  }

  lemma LargestIsUnique(starts: Starts, a: nat, b: nat)
    requires IsLargest(starts, a) && IsLargest(starts, b)
    ensures a == b
  {
    var m :| m in starts && starts[m] == a;
    var n :| n in starts && starts[n] == b;
  }

  /** Two members that play in the same state have chosen alike. */
  lemma PlayersAgree(s: State, starts: Starts, a: Mac, b: Mac)
    requires Invariant(s, starts) && a in s.phases && b in s.phases
    requires s.phases[a].Playing? && s.phases[b].Playing?
    ensures s.phases[a] == s.phases[b]
  {
    hide Nominee, IsLargest, GoodPacket, Said;
    var rounds := (s.phases[a].round, s.phases[b].round);
    assert GoodPhase(starts, s.sent, a, s.phases[a]) && GoodPhase(starts, s.sent, b, s.phases[b]);
    if a != b {
      if rounds.0 == 0 && "" in starts {
        UnheardAgrees(s, starts, a, b);
      } else if rounds.1 == 0 && "" in starts {
        UnheardAgrees(s, starts, b, a);
      } else {
        SaidByAll(s, starts, a, rounds.0);
        SaidByAll(s, starts, b, rounds.1);
        LargestIsUnique(starts, rounds.0, rounds.1);
      }
    }
  }

  /** A member that took empty offers for agreement has never sent one, so that nobody else can decide on more. */
  lemma UnheardAgrees(s: State, starts: Starts, a: Mac, b: Mac)
    requires Invariant(s, starts) && a in s.phases && b in s.phases && a != b
    requires s.phases[a].Playing? && s.phases[a].round == 0 && s.phases[b].Playing? && "" in starts
    ensures s.phases[b].round == 0
  {
    hide Nominee, Credible;
    assert GoodPhase(starts, s.sent, b, s.phases[b]);
    if s.phases[b].round != 0 {
      assert Said(s.sent, a, s.phases[b].round);
      SaidMeans(s, starts, a, s.phases[b].round);
    }
  }

  lemma {:induction false} PlayingStays(states: seq<State>, steps: seq<Step>, i: nat, j: nat, a: Mac)
    requires IsRun(states, steps) && i <= j < |states|
    requires a in states[i].phases && states[i].phases[a].Playing?
    ensures a in states[j].phases && states[j].phases[a] == states[i].phases[a]
  {
    hide Started, Receive, Updated, AllEqual;
    if i < j {
      PlayingStays(states, steps, i, j - 1, a);
      assert Enabled(states[j - 1], steps[j - 1]);
      assert states[(j - 1) + 1] == Do(states[j - 1], steps[j - 1]);
    }
  }

  /** Agreement: in every run all members that play have chosen the same round and the same generator. */
  lemma MembersAgree(states: seq<State>, steps: seq<Step>, i: nat, j: nat, a: Mac, b: Mac)
    requires IsRun(states, steps) && i < |states| && j < |states|
    requires a in states[i].phases && states[i].phases[a].Playing?
    requires b in states[j].phases && states[j].phases[b].Playing?
    ensures states[i].phases[a] == states[j].phases[b]
  {
    hide IsRun, Invariant;
    var k := if i < j then j else i;
    PlayingStays(states, steps, i, k, a);
    PlayingStays(states, steps, j, k, b);
    RunKeeps(states, steps, k);
    PlayersAgree(states[k], StartsOf(states[0]), a, b);
  }

  /** The generator everybody chose is one of them. */
  lemma GeneratorIsMember(states: seq<State>, steps: seq<Step>, k: nat, member: Mac)
    requires IsRun(states, steps) && k < |states|
    requires member in states[k].phases && states[k].phases[member].Playing?
    ensures states[k].phases[member].generator in states[0].phases.Keys
  {
    hide IsRun, Nominee;
    DecidedRound(states, steps, k, member);
    NomineeIsMember(states[0].phases.Keys, states[k].phases[member].round);
  }

  // ----- when it is the largest round -----

  /** Exactly then may a member decide before it has heard from anybody. */
  lemma DecidesUnheard(globalRound: nat, peers: set<Mac>, localMac: Mac)
    requires peers != {} && localMac !in peers
    ensures AllEqual(Started(globalRound, peers, localMac))
       <==> (globalRound + 1) % UINT32_RANGE == 0 && Nominee(peers + {localMac}, 0) == ""
  {
    hide Nominee;
    var peer :| peer in peers;
    var n := Started(globalRound, peers, localMac);
    assert n.offers[peer] == NO_OFFER;
  }

  ghost predicate Plays(states: seq<State>, steps: seq<Step>, k: nat, m: Mac) {
    IsRun(states, steps) && k < |states| && m in states[k].phases && states[k].phases[m].Playing?
  }

  /** In every run from a state whoever plays has chosen the largest starting round. */
  ghost predicate LargestWins(start: State) {
    forall states: seq<State>, steps: seq<Step>, k: nat, m: Mac |
      Plays(states, steps, k, m) && states[0] == start :: IsLargest(StartsOf(start), states[k].phases[m].round)
  }

  /** That holds exactly if own offers differ from empty ones, or all start alike. */
  lemma LargestWinsExactly(start: State)
    requires Initial(start)
    ensures LargestWins(start) <==> Distinct(StartsOf(start)) || AllSame(StartsOf(start))
  {
    hide Nominee, Do, IsLargest;
    var starts := StartsOf(start);
    if Distinct(starts) || AllSame(starts) {
      forall states: seq<State>, steps: seq<Step>, k: nat, m: Mac |
        Plays(states, steps, k, m) && states[0] == start
        ensures IsLargest(starts, states[k].phases[m].round)
      {
        DecidedRound(states, steps, k, m);
        if !IsLargest(starts, states[k].phases[m].round) {
          ZeroIsLargest(starts, m);
        }
      }
    } else {
      SmallerWins(start);
    }
  }

  lemma ZeroIsLargest(starts: Starts, m: Mac)
    requires Credible(starts, m, 0) && "" in starts && (Distinct(starts) || AllSame(starts))
    ensures IsLargest(starts, 0)
  {
  }

  /** A member that starts at zero begins, checks and decides, while another has started higher. */
  lemma SmallerWins(start: State)
    requires Initial(start) && !Distinct(StartsOf(start)) && !AllSame(StartsOf(start))
    ensures !LargestWins(start)
  {
    hide Nominee;
    var starts := StartsOf(start);
    assert starts.Keys == start.phases.Keys;
    var m :| m in starts && starts[m] == 0;
    var peers := Peers(start, m);
    var a, b :| a in starts && b in starts && starts[a] != starts[b];
    assert peers + {m} == starts.Keys;
    assert a in peers || b in peers;
    EmptyNominee(starts.Keys);
    DecidesUnheard(start.phases[m].globalRound, peers, m);
    var begun := Do(start, Begin(m));
    var ended := Do(begun, Check(m));
    var states, steps := [start, begun, ended], [Begin(m), Check(m)];
    assert IsRun(states, steps);
    assert states[2].phases[m] == Playing("", 0);
    assert Plays(states, steps, 2, m);
    assert !IsLargest(starts, 0);
  }
}
