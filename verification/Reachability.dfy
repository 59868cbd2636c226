/** Runs of the negotiation: lock-step rounds are stretches of them, and when a run can end with everybody playing. */
module Reachability {
  import opened Macs
  import opened Decimal
  import opened Negotiation
  import opened Agreement
  import opened LockStep
  import MessageRoundTrip

  // ----- stretches of runs -----

  ghost predicate IsPath(states: seq<State>, steps: seq<Step>) {
    && |states| == |steps| + 1
    && forall k | 0 <= k < |steps| :: Enabled(states[k], steps[k]) && states[k + 1] == Do(states[k], steps[k])
  }

  ghost predicate Reaches(s: State, t: State) {
    exists states, steps :: IsPath(states, steps) && states[0] == s && states[|steps|] == t
  }

  lemma ReachesItself(s: State)
    ensures Reaches(s, s)
  {
    hide Do;
    assert IsPath([s], []);
  }

  lemma ReachesNext(s: State, step: Step)
    requires Enabled(s, step)
    ensures Reaches(s, Do(s, step))
  {
    hide Do;
    assert IsPath([s, Do(s, step)], [step]);
  }

  lemma ReachesOn(s: State, t: State, u: State)
    requires Reaches(s, t) && Reaches(t, u)
    ensures Reaches(s, u)
  {
    hide Do, Enabled;
    var xs, x :| IsPath(xs, x) && xs[0] == s && xs[|x|] == t;
    var ys, y :| IsPath(ys, y) && ys[0] == t && ys[|y|] == u;
    var states, steps := xs + ys[1..], x + y;
    forall k | 0 <= k < |steps|
      ensures Enabled(states[k], steps[k]) && states[k + 1] == Do(states[k], steps[k])
    {
      if k >= |x| {
        assert states[k] == ys[k - |x|] && states[k + 1] == ys[k - |x| + 1] && steps[k] == y[k - |x|];
      } else {
        assert states[k] == xs[k] && states[k + 1] == xs[k + 1] && steps[k] == x[k];
      }
    }
    assert IsPath(states, steps);
    assert states[|steps|] == ys[|y|];
  }

  lemma RunTo(s: State, t: State) returns (states: seq<State>, steps: seq<Step>)
    requires Initial(s) && Reaches(s, t)
    ensures IsRun(states, steps) && states[0] == s && states[|steps|] == t
  {
    hide Do, Enabled, Initial;
    states, steps :| IsPath(states, steps) && states[0] == s && states[|steps|] == t;
  }

  lemma ReachedIsGood(s: State, t: State)
    requires Initial(s) && Reaches(s, t)
    ensures Invariant(t, StartsOf(s)) && Proper(t.phases)
  {
    hide IsRun, Nominee, Credible, Said, GoodDecision;
    var states, steps := RunTo(s, t);
    assert |states| == |steps| + 1 by { RunLength(states, steps); }
    RunKeeps(states, steps, |steps|);
    forall m | m in t.phases && t.phases[m].Negotiating?
      ensures Consistent(t.phases[m].node) && t.phases[m].node.localMac == m
    {
      assert GoodPhase(StartsOf(s), t.sent, m, t.phases[m]);
    }
  }

  lemma RunLength(states: seq<State>, steps: seq<Step>)
    requires IsRun(states, steps)
    ensures |states| == |steps| + 1
  {
  }

  // ----- a lock-step round is a stretch of a run -----

  predicate Proper(members: Members) {
    forall m | m in members && members[m].Negotiating? ::
      Consistent(members[m].node) && members[m].node.localMac == m
  }

  lemma ProperChecks(members: Members)
    requires Proper(members)
    ensures CanCheck(members)
  {
  }

  /** The phases when the members of a set have checked. */
  ghost function CheckedBy(members: Members, done: set<Mac>): Members
    requires CanCheck(members)
  {
    map m | m in members :: if m in done then AfterCheck(m, members[m]) else members[m]
  }

  lemma CheckStep(s: State, m: Mac)
    requires CanCheck(s.phases) && m in s.phases && s.phases[m].Negotiating?
    ensures Enabled(s, Check(m)) && Do(s, Check(m)).phases == s.phases[m := AfterCheck(m, s.phases[m])]
    ensures MayCheck(m, AfterCheck(m, s.phases[m]))
    ensures s.sent <= Do(s, Check(m)).sent
    ensures Speaks(m, s.phases[m]) ==>
      m in Updated(s.phases[m].node).offers
      && Packet(m, Updated(s.phases[m].node).offers[m]) in Do(s, Check(m)).sent
  {
    hide AllEqual, Nominee, MaxRound;
    assert MayCheck(m, s.phases[m]);
  }

  /** What a member sends at its check. */
  ghost predicate HasSpoken(s: State, m: Mac, t: State)
    requires CanCheck(s.phases) && m in s.phases
  {
    Speaks(m, s.phases[m]) ==>
      m in Updated(s.phases[m].node).offers && Packet(m, Updated(s.phases[m].node).offers[m]) in t.sent
  }

  lemma {:induction false} ChecksReach(s: State, left: set<Mac>) returns (t: State)
    requires CanCheck(s.phases) && left <= s.phases.Keys
    ensures Reaches(s, t) && s.sent <= t.sent && t.phases == CheckedBy(s.phases, left)
    ensures forall m | m in left :: HasSpoken(s, m, t)
    decreases left
  {
    hide Do, Enabled, Reaches, AfterCheck, HasSpoken, MayCheck;
    if left == {} {
      ReachesItself(s);
      t := s;
    } else {
      var m :| m in left;
      var u := OneChecks(s, m);
      t := ChecksReach(u, left - {m});
      ReachesOn(s, u, t);
      forall k | k in left
        ensures HasSpoken(s, k, t)
      {
        SpokenStays(s, k, u, t);
      }
    }
  }

  lemma SpokenStays(s: State, k: Mac, u: State, t: State)
    requires CanCheck(s.phases) && k in s.phases && u.sent <= t.sent
    requires HasSpoken(s, k, u) || (CanCheck(u.phases) && k in u.phases && u.phases[k] == s.phases[k] && HasSpoken(u, k, t))
    ensures HasSpoken(s, k, t)
  {
    hide Speaks, MayCheck, Updated;
  }

  lemma OneChecks(s: State, m: Mac) returns (u: State)
    requires CanCheck(s.phases) && m in s.phases
    ensures Reaches(s, u) && s.sent <= u.sent && CanCheck(u.phases)
    ensures u.phases == s.phases[m := AfterCheck(m, s.phases[m])] && HasSpoken(s, m, u)
  {
    hide Do, Enabled, Reaches, MayCheck, Updated;
    assert MayCheck(m, s.phases[m]);
    if s.phases[m].Negotiating? {
      CheckStep(s, m);
      u := Do(s, Check(m));
      ReachesNext(s, Check(m));
    } else {
      u := s;
      ReachesItself(s);
      assert s.phases[m := s.phases[m]] == s.phases;
    }
  }

  function From(offers: Offers, senders: set<Mac>): Offers {
    map k | k in offers && k in senders :: offers[k]
  }

  /** One member hears from some of the others. */
  lemma {:induction false} OneHears(s: State, m: Mac, offers: Offers, left: set<Mac>) returns (t: State)
    requires m in s.phases && s.phases[m].Negotiating? && Consistent(s.phases[m].node)
    requires left <= offers.Keys - {m} && forall k | k in left :: Packet(k, offers[k]) in s.sent
    ensures Reaches(s, t) && t.sent == s.sent
    ensures t.phases == s.phases[m := Negotiating(Informed(s.phases[m].node, From(offers, left)))]
    decreases left
  {
    hide Reaches, Informed, Receive, Consistent;
    var n := s.phases[m].node;
    if left == {} {
      ReachesItself(s);
      NothingHeard(n, offers);
      assert s.phases[m := s.phases[m]] == s.phases;
      t := s;
    } else {
      var k :| k in left;
      var u := OneHears(s, m, offers, left - {k});
      var seen := From(offers, left - {k});
      OneMore(n, seen, k, offers[k]);
      assert From(offers, left) == seen[k := offers[k]];
      var step := Deliver(m, Packet(k, offers[k]));
      t := Do(u, step);
      ReachesNext(u, step);
      ReachesOn(s, u, t);
    }
  }

  lemma NothingHeard(n: Node, offers: Offers)
    ensures Informed(n, From(offers, {})) == n
  {
  }

  /** The own offer is not heard. */
  lemma NotFromItself(n: Node, offers: Offers)
    requires Consistent(n)
    ensures Informed(n, From(offers, offers.Keys - {n.localMac})) == Informed(n, offers)
  {
    hide Arrived;
  }

  /** The phases when the members of a set have heard the offers. */
  function HeardBy(members: Members, offers: Offers, done: set<Mac>): Members {
    map m | m in members :: if m in done then Heard(members[m], offers) else members[m]
  }

  lemma {:induction false} AllHear(s: State, offers: Offers, left: set<Mac>) returns (t: State)
    requires Proper(s.phases) && left <= s.phases.Keys
    requires forall k | k in offers :: Packet(k, offers[k]) in s.sent
    ensures Reaches(s, t) && t.sent == s.sent && t.phases == HeardBy(s.phases, offers, left)
    decreases left
  {
    hide Reaches, Informed, Consistent;
    if left == {} {
      ReachesItself(s);
      t := s;
    } else {
      var m :| m in left;
      var u := AllHear(s, offers, left - {m});
      if s.phases[m].Negotiating? {
        t := OneHears(u, m, offers, offers.Keys - {m});
        NotFromItself(s.phases[m].node, offers);
        ReachesOn(s, u, t);
      } else {
        t := u;
      }
    }
  }

  lemma CheckedIsProper(members: Members, done: set<Mac>)
    requires Proper(members)
    ensures CanCheck(members) && Proper(CheckedBy(members, done))
  {
    hide AllEqual, Nominee, MaxRound;
  }

  /** A lock-step round is made of checks and deliveries. */
  lemma RoundIsReached(s: State) returns (t: State)
    requires Proper(s.phases)
    ensures CanCheck(s.phases) && Reaches(s, t) && t.phases == Round(s.phases)
  {
    hide *;
    ProperChecks(s.phases);
    CheckedIsProper(s.phases, s.phases.Keys);
    var u := ChecksReach(s, s.phases.Keys);
    BroadcastSent(s, u);
    t := AllHear(u, Broadcast(s.phases), u.phases.Keys);
    ReachesOn(s, u, t);
    RoundIsHeard(s.phases, Broadcast(s.phases));
  }

  lemma BroadcastSent(s: State, u: State)
    requires CanCheck(s.phases) && forall m | m in s.phases :: HasSpoken(s, m, u)
    ensures forall k | k in Broadcast(s.phases) :: Packet(k, Broadcast(s.phases)[k]) in u.sent
    ensures CheckedBy(s.phases, s.phases.Keys).Keys == s.phases.Keys
  {
    hide Updated, Speaks, MayCheck;
  }

  lemma RoundIsHeard(members: Members, offers: Offers)
    requires CanCheck(members) && offers == Broadcast(members)
    ensures CheckedBy(members, members.Keys) == Checked(members)
    ensures HeardBy(CheckedBy(members, members.Keys), offers, CheckedBy(members, members.Keys).Keys) == Round(members)
  {
    hide AfterCheck, MayCheck, Broadcast, Heard;
  }

  lemma {:induction false} RoundsAreReached(start: State, s: State, n: nat) returns (t: State)
    requires Initial(start) && Reaches(start, s)
    ensures CanCheck(s.phases) && Reaches(start, t) && t.phases == Rounds(s.phases, n)
    decreases n
  {
    hide *;
    ReachedIsGood(start, s);
    ProperChecks(s.phases);
    if n == 0 {
      RoundsNone(s.phases);
      t := s;
    } else {
      var u := RoundIsReached(s);
      ReachesOn(start, s, u);
      t := RoundsAreReached(start, u, n - 1);
      RoundsOnce(s.phases, n);
    }
  }

  /** The state in which nobody has begun. */
  function Fresh(globals: map<Mac, nat>): State {
    State(map m | m in globals :: Waiting(globals[m]), {})
  }

  lemma FreshIs(globals: map<Mac, nat>)
    ensures Initial(Fresh(globals)) && StartsOf(Fresh(globals)) == Begun(globals) && Begun(globals).Keys == globals.Keys
    ensures Fresh(globals).phases.Keys == globals.Keys
  {
  }

  /** Some members have begun. */
  ghost function BegunBy(globals: map<Mac, nat>, done: set<Mac>): State {
    State(map m | m in globals ::
            if m in done then Negotiating(Started(globals[m], globals.Keys - {m}, m)) else Waiting(globals[m]), {})
  }

  lemma {:induction false} BeginningsReach(globals: map<Mac, nat>, done: set<Mac>)
    requires done <= globals.Keys
    ensures Reaches(Fresh(globals), BegunBy(globals, done))
    decreases done
  {
    hide Reaches, Started;
    if done == {} {
      assert BegunBy(globals, done) == Fresh(globals);
      ReachesItself(Fresh(globals));
    } else {
      var m :| m in done;
      var s, t := BegunBy(globals, done - {m}), BegunBy(globals, done);
      BeginningsReach(globals, done - {m});
      assert s.phases.Keys == globals.Keys;
      assert Do(s, Begin(m)) == t;
      ReachesNext(s, Begin(m));
      ReachesOn(Fresh(globals), s, t);
    }
  }

  lemma AllBegin(globals: map<Mac, nat>)
    ensures Reaches(Fresh(globals), State(StartAll(globals), {}))
  {
    hide Reaches, Started;
    BeginningsReach(globals, globals.Keys);
    assert BegunBy(globals, globals.Keys) == State(StartAll(globals), {});
  }

  /** Whatever happens in lock step, at any check, happens in a run over the network. */
  lemma LockStepIsRun(globals: map<Mac, nat>, n: nat) returns (states: seq<State>, steps: seq<Step>)
    requires |globals| >= 2
    ensures IsRun(states, steps) && states[0] == Fresh(globals) && states[|steps|].phases == CheckOf(globals, n)
  {
    hide *;
    var start := State(StartAll(globals), {});
    FreshIs(globals);
    AllBegin(globals);
    CheckOfIs(globals, n);
    var s := RoundsAreReached(Fresh(globals), start, n);
    ReachedIsGood(Fresh(globals), s);
    ProperChecks(s.phases);
    var t := ChecksReach(s, s.phases.Keys);
    ReachesOn(Fresh(globals), s, t);
    RoundIsHeard(s.phases, Broadcast(s.phases));
    states, steps := RunTo(Fresh(globals), t);
  }

  // ----- who plays has chosen a round whose ballot arrives as it was sent -----

  /** What is known of another member is nothing or a ballot as it arrives. */
  ghost predicate Heardsay(members: set<Mac>, offer: Ballot)
    requires members != {}
  {
    offer == NO_OFFER || (offer.round < INT_LIMIT && offer == Seen(members, offer.round))
  }

  ghost predicate HonestPhase(members: set<Mac>, phase: Phase)
    requires members != {}
  {
    match phase
    case Waiting(_) => true
    case Negotiating(n) => forall k | k in n.peers && k in n.offers :: Heardsay(members, n.offers[k])
    case Playing(_, round) => Survives(members, round)
  }

  ghost predicate Honest(s: State, members: set<Mac>)
    requires members != {}
  {
    && (forall p | p in s.sent :: p.offer == Vote(members, p.offer.round))
    && forall m | m in s.phases :: HonestPhase(members, s.phases[m])
  }

  lemma StartHonest(members: set<Mac>, globalRound: nat, m: Mac)
    requires members != {}
    ensures HonestPhase(members, Negotiating(Started(globalRound, members - {m}, m)))
  {
    hide Nominee, Seen;
  }

  lemma ReceiveHonest(members: set<Mac>, n: Node, sender: Mac, offer: Ballot)
    requires members != {} && HonestPhase(members, Negotiating(n)) && offer == Vote(members, offer.round)
    ensures HonestPhase(members, Negotiating(Receive(n, sender, offer)))
  {
    hide Arrived, Vote, Survives, Nominee, XmlRoundTrip.RereadContent;
    VoteArrives(members, offer.round);
  }

  lemma DecisionHonest(starts: Starts, sent: set<Packet>, m: Mac, n: Node)
    requires |starts.Keys| >= 2 && GoodNode(starts, sent, m, n) && AllEqual(n)
    requires HonestPhase(starts.Keys, Negotiating(n))
    ensures Survives(starts.Keys, n.offers[m].round)
  {
    hide Nominee, Credible, Said, Survives, Seen;
    var members := starts.Keys;
    assert |members - {m}| == |members| - 1;
    assert members - {m} != {};
    var k :| k in members - {m};
    assert n.offers[k] == n.offers[m] == Vote(members, n.round);
    assert Heardsay(members, n.offers[k]);
    VoteArrives(members, n.round);
    if n.offers[k] == NO_OFFER {
      EmptySurvives(members, n.round);
    }
  }

  lemma EmptySurvives(members: set<Mac>, round: nat)
    requires members != {} && Vote(members, round) == NO_OFFER
    ensures Survives(members, round)
  {
    hide Nominee;
  }

  lemma UpdateHonest(starts: Starts, sent: set<Packet>, m: Mac, n: Node)
    requires GoodNode(starts, sent, m, n) && HonestPhase(starts.Keys, Negotiating(n))
    ensures n.offers != map[] && m in Updated(n).offers
    ensures HonestPhase(starts.Keys, Negotiating(Updated(n)))
    ensures Updated(n).offers[m] == Vote(starts.Keys, Updated(n).offers[m].round)
  {
    hide Nominee, Credible, Said, Heardsay, MaxRound;
    assert n.offers.Keys == starts.Keys;
    assert m in n.offers && m !in n.peers;
  }

  lemma StepHonest(s: State, starts: Starts, step: Step)
    requires |starts.Keys| >= 2 && Invariant(s, starts) && Enabled(s, step) && Honest(s, starts.Keys)
    ensures Honest(Do(s, step), starts.Keys)
  {
    hide GoodNode, GoodPacket, HonestPhase, Started, Receive, Updated, AllEqual, Vote, Survives;
    var m := step.member;
    assert GoodPhase(starts, s.sent, m, s.phases[m]);
    assert HonestPhase(starts.Keys, s.phases[m]);
    match step
    case Begin(_) => StartHonest(starts.Keys, s.phases[m].globalRound, m);
    case Deliver(_, p) => ReceiveHonest(starts.Keys, s.phases[m].node, p.sender, p.offer);
    case Check(_) =>
      var n := s.phases[m].node;
      if AllEqual(n) {
        DecisionHonest(starts, s.sent, m, n);
        PlaysHonest(starts.Keys, n.offers[m].mac, n.offers[m].round);
      } else {
        UpdateHonest(starts, s.sent, m, n);
      }
  }

  lemma PlaysHonest(members: set<Mac>, generator: Mac, round: nat)
    requires members != {}
    ensures HonestPhase(members, Playing(generator, round)) <==> Survives(members, round)
  {
    hide Survives;
  }

  lemma {:induction false} RunHonest(states: seq<State>, steps: seq<Step>, k: nat)
    requires IsRun(states, steps) && k < |states| && |states[0].phases| >= 2
    ensures StartsOf(states[0]).Keys == states[0].phases.Keys != {}
    ensures Honest(states[k], states[0].phases.Keys)
  {
    hide Do, Vote, Survives, Invariant, Enabled;
    var starts := StartsOf(states[0]);
    assert starts.Keys == states[0].phases.Keys;
    assert |starts.Keys| == |states[0].phases|;
    if k > 0 {
      RunHonest(states, steps, k - 1);
      RunKeeps(states, steps, k - 1);
      StepHonest(states[k - 1], starts, steps[k - 1]);
      assert states[(k - 1) + 1] == Do(states[k - 1], steps[k - 1]);
    }
  }

  /** In every run the ballot for the round chosen arrives as it was sent. */
  lemma PlayedSurvives(states: seq<State>, steps: seq<Step>, k: nat, m: Mac)
    requires IsRun(states, steps) && k < |states| && |states[0].phases| >= 2
    requires m in states[k].phases && states[k].phases[m].Playing?
    ensures states[0].phases.Keys != {} && Survives(states[0].phases.Keys, states[k].phases[m].round)
  {
    hide IsRun, Vote, Survives;
    RunHonest(states, steps, k);
    PlaysHonest(states[0].phases.Keys, states[k].phases[m].generator, states[k].phases[m].round);
  }

  // ----- when everybody can come to play -----

  ghost predicate EverybodyPlays(s: State) {
    forall m | m in s.phases :: s.phases[m].Playing?
  }

  /** Some run ends with everybody playing. */
  ghost predicate CanAgree(globals: map<Mac, nat>) {
    exists t :: Reaches(Fresh(globals), t) && EverybodyPlays(t)
  }

  /** A member that has heard ballots for the largest round from some others and stands at a round itself. */
  ghost function Half(members: set<Mac>, largest: nat, heard: set<Mac>, m: Mac, round: nat): Node
    requires members != {}
  {
    Node(m, members - {m},
         map k | k in members ::
           if k == m then Vote(members, round) else if k in heard then Vote(members, largest) else NO_OFFER,
         round)
  }

  lemma StartedIsHalf(globals: map<Mac, nat>, largest: nat, m: Mac)
    requires m in globals
    ensures Started(globals[m], globals.Keys - {m}, m) == Half(globals.Keys, largest, {}, m, Begun(globals)[m])
  {
    hide Nominee;
    assert globals.Keys - {m} + {m} == globals.Keys;
  }

  /** Such a member goes on at its own round if it is the largest and nobody was heard, else at the largest heard. */
  lemma HalfGoesOn(members: set<Mac>, largest: nat, heard: set<Mac>, m: Mac, round: nat)
    requires |members| >= 2 && m in members && round <= largest && Vote(members, largest) != NO_OFFER
    requires if round == largest then heard == {} else exists k :: k in heard && k in members && k != m
    ensures var n := Half(members, largest, heard, m, round);
      MayCheck(m, Negotiating(n)) && Speaks(m, Negotiating(n)) && n.offers != map[]
      && Updated(n) == Half(members, largest, heard, m, largest)
  {
    hide Nominee, MaxRound;
    var n := Half(members, largest, heard, m, round);
    assert |members - {m}| == |members| - 1;
    assert members - {m} != {};
    var other :| other in members - {m};
    assert n.offers.Keys == members;
    if round == largest {
      assert n.offers[other] != n.offers[m];
    } else {
      var k :| k in heard && k in members && k != m;
      assert n.offers[k].round == largest && n.offers[k] != n.offers[m];
    }
    MaxRoundIsUnique(n, MaxRound(n), largest);
  }

  /** It hears from some more. */
  lemma HalfHears(members: set<Mac>, largest: nat, heard: set<Mac>, m: Mac, round: nat, more: set<Mac>)
    requires members != {} && m in members && more <= members && Survives(members, largest)
    ensures Informed(Half(members, largest, heard, m, round), map k | k in more :: Vote(members, largest))
         == Half(members, largest, heard + more, m, round)
  {
    hide Vote, Survives, Arrived, Seen;
    VoteArrives(members, largest);
    SurvivorsAreLow(members, largest);
  }

  /** With everybody heard it decides. */
  lemma HalfDecides(members: set<Mac>, largest: nat, m: Mac)
    requires m in members
    ensures var phase := Negotiating(Half(members, largest, members, m, largest));
      MayCheck(m, phase) && AfterCheck(m, phase).Playing?
  {
    hide Nominee;
  }

  /** The members that start with the largest round. */
  function Tops(globals: map<Mac, nat>, largest: nat): set<Mac> {
    set m | m in globals && Begun(globals)[m] == largest
  }

  /** All members stand at their starts or, in a set, at the largest round; all have heard from some. */
  ghost function Halves(globals: map<Mac, nat>, largest: nat, heard: set<Mac>, raised: set<Mac>): Members {
    map m | m in globals ::
      Negotiating(Half(globals.Keys, largest, heard, m, if m in raised then largest else Begun(globals)[m]))
  }

  lemma HalvesProper(globals: map<Mac, nat>, largest: nat, heard: set<Mac>, raised: set<Mac>)
    ensures Proper(Halves(globals, largest, heard, raised)) && CanCheck(Halves(globals, largest, heard, raised))
  {
    hide Half, Consistent;
    forall m: Mac, round: nat | m in globals
      ensures Consistent(Half(globals.Keys, largest, heard, m, round))
      ensures Half(globals.Keys, largest, heard, m, round).localMac == m
    {
      HalfIsConsistent(globals.Keys, largest, heard, m, round);
    }
    ProperChecks(Halves(globals, largest, heard, raised));
  }

  lemma HalfIsConsistent(members: set<Mac>, largest: nat, heard: set<Mac>, m: Mac, round: nat)
    requires m in members
    ensures Consistent(Half(members, largest, heard, m, round)) && Half(members, largest, heard, m, round).localMac == m
  {
    hide Nominee;
  }

  lemma StartAtMost(globals: map<Mac, nat>, largest: nat, m: Mac)
    requires IsLargest(Begun(globals), largest) && m in globals
    ensures Begun(globals)[m] <= largest
  {
  }

  lemma HalfSpeaks(s: State, m: Mac, u: State, members: set<Mac>, largest: nat, heard: set<Mac>, round: nat)
    requires CanCheck(s.phases) && m in s.phases && members != {} && m in members
    requires s.phases[m] == Negotiating(Half(members, largest, heard, m, round))
    requires var n := s.phases[m].node;
      Speaks(m, s.phases[m]) && n.offers != map[] && Updated(n) == Half(members, largest, heard, m, largest)
    requires HasSpoken(s, m, u)
    ensures AfterCheck(m, s.phases[m]) == Negotiating(Half(members, largest, heard, m, largest))
    ensures Packet(m, Vote(members, largest)) in u.sent
  {
    hide Vote, Updated, AllEqual;
  }

  /** Some members check, raise themselves to the largest round, and all hear of it. */
  lemma HalvesGoOn(globals: map<Mac, nat>, largest: nat, heard: set<Mac>, speakers: set<Mac>, s: State)
      returns (t: State)
    requires |globals.Keys| >= 2 && IsLargest(Begun(globals), largest) && Survives(globals.Keys, largest)
    requires Vote(globals.Keys, largest) != NO_OFFER && speakers <= globals.Keys
    requires s.phases == Halves(globals, largest, heard, heard)
    requires forall m | m in speakers ::
      if Begun(globals)[m] == largest then heard == {}
      else m !in heard && exists k :: k in heard && k in globals && k != m
    ensures Reaches(s, t) && t.phases == Halves(globals, largest, heard + speakers, heard + speakers)
  {
    hide Reaches, AfterCheck, Speaks, MayCheck, Half, Vote, Survives, Updated, Informed, IsLargest, HasSpoken, Proper;
    var members := globals.Keys;
    HalvesProper(globals, largest, heard, heard);
    var u := ChecksReach(s, speakers);
    forall m | m in speakers
      ensures u.phases[m] == Negotiating(Half(members, largest, heard, m, largest))
      ensures Packet(m, Vote(members, largest)) in u.sent
    {
      StartAtMost(globals, largest, m);
      HalfGoesOn(members, largest, heard, m, Begun(globals)[m]);
      HalfSpeaks(s, m, u, members, largest, heard, Begun(globals)[m]);
    }
    assert u.phases == Halves(globals, largest, heard, heard + speakers);
    var offers := map k | k in speakers :: Vote(members, largest);
    HalvesProper(globals, largest, heard, heard + speakers);
    t := AllHear(u, offers, members);
    ReachesOn(s, u, t);
    forall m | m in globals
      ensures t.phases[m] == Halves(globals, largest, heard + speakers, heard + speakers)[m]
    {
      var round := if m in heard + speakers then largest else Begun(globals)[m];
      assert u.phases[m] == Negotiating(Half(members, largest, heard, m, round));
      HalfHears(members, largest, heard, m, round, speakers);
    }
  }

  lemma StartsAreHalves(globals: map<Mac, nat>, largest: nat)
    ensures StartAll(globals) == Halves(globals, largest, {}, {})
  {
    hide Started, Half, Nominee;
    forall m | m in globals
      ensures StartAll(globals)[m] == Halves(globals, largest, {}, {})[m]
    {
      StartedIsHalf(globals, largest, m);
    }
  }

  /** Everybody has heard everybody. */
  lemma HalvesDecide(globals: map<Mac, nat>, largest: nat, s: State) returns (t: State)
    requires s.phases == Halves(globals, largest, globals.Keys, globals.Keys)
    ensures Reaches(s, t) && EverybodyPlays(t)
  {
    hide Reaches, AfterCheck, MayCheck, Half, HasSpoken, Proper;
    HalvesProper(globals, largest, globals.Keys, globals.Keys);
    t := ChecksReach(s, globals.Keys);
    forall m | m in globals
      ensures t.phases[m].Playing?
    {
      HalfDecides(globals.Keys, largest, m);
    }
  }

  /** The members with the largest round speak first, and when all have heard them, the others do. */
  lemma AgreementReached(globals: map<Mac, nat>, largest: nat)
    requires |globals.Keys| >= 2 && IsLargest(Begun(globals), largest) && Survives(globals.Keys, largest)
    requires Vote(globals.Keys, largest) != NO_OFFER
    ensures CanAgree(globals)
  {
    hide *;
    var start, tops := State(StartAll(globals), {}), Tops(globals, largest);
    AllBegin(globals);
    StartsAreHalves(globals, largest);
    TopsAre(globals, largest);
    var first := HalvesGoOn(globals, largest, {}, tops, start);
    assert {} + tops == tops;
    var second := HalvesGoOn(globals, largest, tops, globals.Keys - tops, first);
    assert tops + (globals.Keys - tops) == globals.Keys;
    var third := HalvesDecide(globals, largest, second);
    ReachesOn(Fresh(globals), start, first);
    ReachesOn(Fresh(globals), first, second);
    ReachesOn(Fresh(globals), second, third);
    Agreed(globals, third);
  }

  lemma TopsAre(globals: map<Mac, nat>, largest: nat)
    requires IsLargest(Begun(globals), largest)
    ensures Tops(globals, largest) <= globals.Keys
    ensures forall m | m in globals :: m in Tops(globals, largest) <==> Begun(globals)[m] == largest
    ensures forall m | m in globals && m !in Tops(globals, largest) ::
      exists k :: k in Tops(globals, largest) && k in globals && k != m
  {
    var top :| top in Begun(globals) && Begun(globals)[top] == largest;
    assert top in Tops(globals, largest);
  }

  lemma Agreed(globals: map<Mac, nat>, t: State)
    requires Reaches(Fresh(globals), t) && EverybodyPlays(t)
    ensures CanAgree(globals)
  {
    hide Reaches, EverybodyPlays;
  }

  /** Members that all start with a ballot that looks empty agree at once. */
  lemma EmptyAgree(globals: map<Mac, nat>, largest: nat)
    requires |globals| >= 2 && globals.Keys != {} && IsLargest(Begun(globals), largest)
    requires Vote(globals.Keys, largest) == NO_OFFER
    ensures CanAgree(globals)
  {
    hide Reaches, AfterCheck, MayCheck, Started, HasSpoken, Speaks, Nominee;
    var start := State(StartAll(globals), {});
    AllBegin(globals);
    NomineeIsMember(globals.Keys, largest);
    BegunFacts(globals);
    var t := ChecksReach(start, globals.Keys);
    forall m | m in globals
      ensures t.phases[m].Playing?
    {
      ZeroDecides(globals, m);
    }
    ReachesOn(Fresh(globals), start, t);
  }

  /** When everybody plays, who started with the largest round has chosen it. */
  lemma AgreedSurvives(globals: map<Mac, nat>, largest: nat)
    requires |globals| >= 2 && globals.Keys != {} && IsLargest(Begun(globals), largest) && CanAgree(globals)
    ensures Survives(globals.Keys, largest)
  {
    hide Reaches, IsRun, Survives, IsLargest, GoodPhase, Begun, Fresh;
    var t :| Reaches(Fresh(globals), t) && EverybodyPlays(t);
    FreshIs(globals);
    var states, steps := RunTo(Fresh(globals), t);
    RunLength(states, steps);
    assert |globals.Keys| == |globals| && |Fresh(globals).phases.Keys| == |Fresh(globals).phases|;
    RunKeeps(states, steps, |steps|);
    var top := TopOf(Begun(globals), largest);
    TopChooses(Begun(globals), largest, t.sent, top, t.phases[top]);
    PlayedSurvives(states, steps, |steps|, top);
  }

  lemma TopOf(starts: Starts, largest: nat) returns (top: Mac)
    requires IsLargest(starts, largest)
    ensures top in starts && starts[top] == largest
  {
    top :| top in starts && starts[top] == largest;
  }

  lemma TopChooses(starts: Starts, largest: nat, sent: set<Packet>, top: Mac, phase: Phase)
    requires IsLargest(starts, largest) && top in starts && starts[top] == largest
    requires phase.Playing? && GoodPhase(starts, sent, top, phase)
    ensures phase.round == largest
  {
    hide Nominee, GoodDecision;
    var m :| m in starts && starts[m] == phase.round;
  }

  /**
   Whatever the starting rounds and the addresses: some run ends with everybody playing exactly if the ballot
   for the largest starting round arrives as it was sent.
   */
  lemma AgreementPossible(globals: map<Mac, nat>, largest: nat)
    requires |globals| >= 2 && IsLargest(Begun(globals), largest)
    ensures globals.Keys != {} && (CanAgree(globals) <==> Survives(globals.Keys, largest))
  {
    hide *;
    BegunFacts(globals);
    if Survives(globals.Keys, largest) {
      SizeOfKeys(globals);
      if Vote(globals.Keys, largest) == NO_OFFER {
        EmptyAgree(globals, largest);
      } else {
        AgreementReached(globals, largest);
      }
    }
    if CanAgree(globals) {
      AgreedSurvives(globals, largest);
    }
  }

  lemma SizeOfKeys(globals: map<Mac, nat>)
    ensures |globals.Keys| == |globals|
  {
  }

  // ----- when anybody can come to play -----

  ghost predicate SomebodyPlays(s: State) {
    exists m :: m in s.phases && s.phases[m].Playing?
  }

  /** Some run ends with a decision. */
  ghost predicate CanDecide(globals: map<Mac, nat>) {
    exists t :: Reaches(Fresh(globals), t) && SomebodyPlays(t)
  }

  lemma UnheardDecides(globals: map<Mac, nat>)
    requires |globals| >= 2 && !Distinct(Begun(globals))
    ensures CanDecide(globals)
  {
    hide Reaches, AfterCheck, MayCheck, Started, HasSpoken, Speaks, Distinct;
    var start := State(StartAll(globals), {});
    AllBegin(globals);
    BegunFacts(globals);
    var m := ZeroAmongEmpty(globals);
    ZeroDecides(globals, m);
    var t := ChecksReach(start, {m});
    assert t.phases[m].Playing?;
    ReachesOn(Fresh(globals), start, t);
  }

  lemma DecidedSurvives(globals: map<Mac, nat>, largest: nat)
    requires |globals| >= 2 && globals.Keys != {} && IsLargest(Begun(globals), largest) && Distinct(Begun(globals))
    requires CanDecide(globals)
    ensures Survives(globals.Keys, largest)
  {
    hide Reaches, IsRun, Survives, IsLargest, Begun, Fresh, Nominee;
    var t :| Reaches(Fresh(globals), t) && SomebodyPlays(t);
    var m :| m in t.phases && t.phases[m].Playing?;
    FreshIs(globals);
    var states, steps := RunTo(Fresh(globals), t);
    RunLength(states, steps);
    assert |globals.Keys| == |globals| && |Fresh(globals).phases.Keys| == |Fresh(globals).phases|;
    DecidedRound(states, steps, |steps|, m);
    LargestChosen(Begun(globals), m, largest, t.phases[m].round);
    PlayedSurvives(states, steps, |steps|, m);
  }

  lemma LargestChosen(starts: Starts, m: Mac, largest: nat, round: nat)
    requires IsLargest(starts, largest) && Distinct(starts)
    requires IsLargest(starts, round) || (round == 0 && "" in starts && Credible(starts, m, 0))
    ensures round == largest
  {
    hide IsLargest;
    if IsLargest(starts, round) {
      LargestIsUnique(starts, round, largest);
    }
  }

  lemma AgreedDecides(globals: map<Mac, nat>)
    requires globals.Keys != {} && CanAgree(globals)
    ensures CanDecide(globals)
  {
    hide Reaches, Invariant;
    var t :| Reaches(Fresh(globals), t) && EverybodyPlays(t);
    FreshIs(globals);
    ReachedIsGood(Fresh(globals), t);
    assert t.phases.Keys == globals.Keys by { InvariantKeys(t, StartsOf(Fresh(globals))); }
    var m :| m in globals;
    assert m in t.phases && t.phases[m].Playing?;
  }

  lemma InvariantKeys(t: State, starts: Starts)
    requires Invariant(t, starts)
    ensures t.phases.Keys == starts.Keys
  {
  }

  /**
   Some run ends with a decision exactly if the ballot for the largest starting round arrives as it was sent, or
   an own ballot may be mistaken for an empty one. In all other cases nobody ever decides, whatever the network does.
   */
  lemma DecisionPossible(globals: map<Mac, nat>, largest: nat)
    requires |globals| >= 2 && IsLargest(Begun(globals), largest)
    ensures globals.Keys != {}
    ensures CanDecide(globals) <==> Survives(globals.Keys, largest) || !Distinct(Begun(globals))
  {
    hide *;
    AgreementPossible(globals, largest);
    if Survives(globals.Keys, largest) {
      AgreedDecides(globals);
    }
    if !Distinct(Begun(globals)) {
      UnheardDecides(globals);
    } else if CanDecide(globals) {
      DecidedSurvives(globals, largest);
    }
  }
}
