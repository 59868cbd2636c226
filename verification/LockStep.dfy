/** Members that check, update and broadcast in rounds, with every offer of a round delivered in that round. */
module LockStep {
  import opened Macs
  import opened Text
  import opened Decimal
  import opened Negotiation
  import opened Agreement
  import Messages
  import MessageRoundTrip
  import opened XmlRoundTrip
  import Entities

  type Members = map<Mac, Phase>

  predicate MayCheck(m: Mac, phase: Phase) {
    phase.Negotiating? ==> phase.node.localMac == m && m in phase.node.offers
  }

  predicate CanCheck(members: Members) {
    forall m | m in members :: MayCheck(m, members[m])
  }

  /** A member decides or adopts the highest round and broadcasts; who plays takes no further part. */
  predicate Speaks(m: Mac, phase: Phase)
    requires MayCheck(m, phase)
  {
    phase.Negotiating? && !AllEqual(phase.node)
  }

  ghost function AfterCheck(m: Mac, phase: Phase): Phase
    requires MayCheck(m, phase)
  {
    if Speaks(m, phase) then Negotiating(Updated(phase.node))
    else if phase.Negotiating? then Playing(phase.node.offers[m].mac, phase.node.offers[m].round)
    else phase
  }

  /** All members that still negotiate check once. */
  ghost function Checked(members: Members): (after: Members)
    requires CanCheck(members)
    ensures after.Keys == members.Keys
  {
    map m | m in members :: AfterCheck(m, members[m])
  }

  /** The offers broadcast in a round. */
  ghost function Broadcast(members: Members): Offers
    requires CanCheck(members)
  {
    map m | m in members && Speaks(m, members[m]) :: Updated(members[m].node).offers[m]
  }

  /** A node after the offers of all its peers have arrived. */
  function Informed(n: Node, offers: Offers): Node {
    n.(offers := map m | m in n.offers ::
        if m in offers && m in n.peers && Arrived(offers[m]).Some? then Arrived(offers[m]).value else n.offers[m])
  }

  function Heard(phase: Phase, offers: Offers): Phase {
    if phase.Negotiating? then Negotiating(Informed(phase.node, offers)) else phase
  }

  /** All members check, and every offer broadcast reaches every other member that still negotiates. */
  ghost function Round(members: Members): (after: Members)
    requires CanCheck(members)
    ensures after.Keys == members.Keys
  {
    var offers := Broadcast(members);
    map m | m in members :: Heard(AfterCheck(m, members[m]), offers)
  }

  /** `Informed` is what the message handler makes of the serialized offers, in whatever order they come in. */
  method DeliverAll(state: StateNegotiating, ghost offers: Offers, messages: map<Mac, string>)
    requires Consistent(state.View())
    requires messages.Keys == offers.Keys && forall m | m in messages :: Carries(messages[m], offers[m])
    modifies state
    ensures state.View() == Informed(old(state.View()), offers)
  {
    hide Carries, Hear;
    ghost var start := state.View();
    var left := messages.Keys;
    while left != {}
      invariant left <= offers.Keys && Consistent(state.View())
      invariant state.View() == Informed(start, map m | m in offers.Keys - left :: offers[m])
      decreases left
    {
      var sender :| sender in left;
      ghost var before := state.View();
      ghost var seen := map m | m in offers.Keys - left :: offers[m];
      HearIsReceive(before, sender, messages[sender], offers[sender]);
      state.OnMessageReceived(sender, messages[sender]);
      left := left - {sender};
      OneMore(start, seen, sender, offers[sender]);
      assert (map m | m in offers.Keys - left :: offers[m]) == seen[sender := offers[sender]];
    }
    assert (map m | m in offers.Keys - left :: offers[m]) == offers;
  }

  lemma OneMore(n: Node, seen: Offers, sender: Mac, offer: Ballot)
    requires Consistent(n) && sender !in seen
    ensures Receive(Informed(n, seen), sender, offer) == Informed(n, seen[sender := offer])
    ensures Consistent(Informed(n, seen))
  {
    hide Arrived;
  }

  /** Members go on being able to check. */
  lemma RoundChecks(members: Members)
    requires CanCheck(members)
    ensures CanCheck(Round(members))
  {
    hide AfterCheck, Broadcast, MayCheck;
    forall m | m in members
      ensures MayCheck(m, Round(members)[m])
    {
      assert MayCheck(m, members[m]);
      HeardMayCheck(m, members[m], Broadcast(members));
    }
  }

  lemma HeardMayCheck(m: Mac, phase: Phase, offers: Offers)
    requires MayCheck(m, phase)
    ensures MayCheck(m, Heard(AfterCheck(m, phase), offers))
  {
    hide AllEqual, Nominee, MaxRound, Arrived;
  }

  ghost function Rounds(members: Members, n: nat): (after: Members)
    requires CanCheck(members)
    ensures CanCheck(after) && after.Keys == members.Keys
    decreases n
  {
    RoundChecks(members);
    if n == 0 then members else Rounds(Round(members), n - 1)
  }

  // ----- what members know -----

  function Begun(globals: map<Mac, nat>): Starts {
    map m | m in globals :: (globals[m] + 1) % UINT32_RANGE
  }

  ghost function StartAll(globals: map<Mac, nat>): Members {
    map m | m in globals :: Negotiating(Started(globals[m], globals.Keys - {m}, m))
  }

  /** A ballot of the member's own making for a round. */
  ghost function Vote(members: set<Mac>, round: nat): Ballot
    requires members != {}
  {
    Ballot(Nominee(members, round), round)
  }

  /** What a peer has of such a ballot: addresses arrive escaped, and rounds from 2^31 on never arrive. */
  ghost function Seen(members: set<Mac>, round: nat): Ballot
    requires members != {}
  {
    if round < INT_LIMIT then Ballot(RereadContent(Nominee(members, round), false), round) else NO_OFFER
  }

  /** The ballot for a round arrives as it was sent. */
  ghost predicate Survives(members: set<Mac>, round: nat)
    requires members != {}
  {
    round < INT_LIMIT && MessageRoundTrip.PlainMac(Nominee(members, round))
  }

  lemma VoteArrives(members: set<Mac>, round: nat)
    requires members != {}
    ensures Arrived(Vote(members, round)) == if round < INT_LIMIT then Some(Seen(members, round)) else None
    ensures round < INT_LIMIT ==> (Seen(members, round) == Vote(members, round) <==> Survives(members, round))
  {
    hide MessageRoundTrip.PlainMac, RereadContent, Nominee;
    MessageRoundTrip.PlainMacArrives(Nominee(members, round));
  }

  /** An own offer differs from an empty one. */
  lemma VoteIsNotEmpty(rounds: Starts, m: Mac)
    requires Distinct(rounds) && m in rounds
    ensures Vote(rounds.Keys, rounds[m]) != NO_OFFER
  {
    hide Nominee;
    NomineeIsMember(rounds.Keys, rounds[m]);
  }

  /** What a member knows when everybody has broadcast its round: all it could read, and its own offer. */
  ghost function Known(rounds: Starts, m: Mac): Offers
    requires m in rounds
  {
    map k | k in rounds :: if k == m then Vote(rounds.Keys, rounds[k]) else Seen(rounds.Keys, rounds[k])
  }

  ghost function Knower(rounds: Starts, m: Mac): Node
    requires m in rounds
  {
    Node(m, rounds.Keys - {m}, Known(rounds, m), rounds[m])
  }

  ghost predicate Knows(members: Members, rounds: Starts) {
    members.Keys == rounds.Keys != {} && forall m | m in members :: members[m] == Negotiating(Knower(rounds, m))
  }

  /** The rounds after an update: the highest that can be read, or the own one if that is higher. */
  ghost function Next(rounds: Starts): Starts {
    map m | m in rounds :: MaxRound(Knower(rounds, m))
  }

  lemma NextIs(rounds: Starts, m: Mac)
    requires m in rounds
    ensures Next(rounds)[m] >= rounds[m] && forall k | k in rounds && rounds[k] < INT_LIMIT :: Next(rounds)[m] >= rounds[k]
    ensures Next(rounds)[m] == rounds[m] || exists k :: k in rounds && rounds[k] < INT_LIMIT && Next(rounds)[m] == rounds[k]
  {
    hide Nominee, MaxRound;
    var n := Knower(rounds, m);
    assert IsMaxRound(n, MaxRound(n));
    forall k | k in rounds && rounds[k] < INT_LIMIT
      ensures Next(rounds)[m] >= rounds[k]
    {
      assert n.offers[k].round == rounds[k];
    }
    if MaxRound(n) != n.round {
      var k :| k in n.offers && MaxRound(n) == n.offers[k].round;
      assert k == m || rounds[k] < INT_LIMIT;
    }
  }

  /** A round that could be read stays so, and one that could not stays at or above 2^31. */
  lemma NextReadable(rounds: Starts, m: Mac)
    requires m in rounds
    ensures Next(rounds)[m] < INT_LIMIT <==> rounds[m] < INT_LIMIT
  {
    hide Next;
    NextIs(rounds, m);
  }

  lemma NextDistinct(rounds: Starts)
    requires Distinct(rounds)
    ensures Distinct(Next(rounds)) && Next(rounds).Keys == rounds.Keys
  {
    hide MaxRound;
    forall m | m in rounds
      ensures Next(rounds)[m] >= rounds[m]
    {
      NextIs(rounds, m);
    }
  }

  lemma NextAtMost(rounds: Starts, largest: nat, m: Mac)
    requires IsLargest(rounds, largest) && m in rounds
    ensures Next(rounds)[m] <= largest
    ensures largest < INT_LIMIT || rounds[m] == largest ==> Next(rounds)[m] == largest
  {
    hide Next;
    NextIs(rounds, m);
    var top :| top in rounds && rounds[top] == largest;
  }

  /** The largest round stays the largest, and if it can be read everybody adopts it. */
  lemma NextLargest(rounds: Starts, largest: nat)
    requires IsLargest(rounds, largest)
    ensures IsLargest(Next(rounds), largest) && Next(rounds).Keys == rounds.Keys
    ensures largest < INT_LIMIT ==> forall m | m in rounds :: Next(rounds)[m] == largest
  {
    hide Next;
    NextKeys(rounds);
    forall m | m in rounds
      ensures Next(rounds)[m] <= largest && (largest < INT_LIMIT || rounds[m] == largest ==> Next(rounds)[m] == largest)
    {
      NextAtMost(rounds, largest, m);
    }
    var top :| top in rounds && rounds[top] == largest;
    assert Next(rounds)[top] == largest;
  }

  lemma NextKeys(rounds: Starts)
    ensures Next(rounds).Keys == rounds.Keys
  {
    hide MaxRound;
  }

  lemma TwoMembers(rounds: Starts, m: Mac)
    requires |rounds| >= 2 && m in rounds
    ensures exists other :: other in rounds && other != m
  {
    assert |rounds.Keys| == |rounds|;
    assert |rounds.Keys - {m}| == |rounds.Keys| - 1;
    assert rounds.Keys - {m} != {};
    var other :| other in rounds.Keys - {m};
    assert other in rounds && other != m;
  }

  // ----- a round in which nobody decides -----

  /** A member that will go on negotiating and then stands at its round; what it cannot read it has never read. */
  ghost predicate Announces(n: Node, m: Mac, next: Starts)
    requires m in next
  {
    && n.localMac == m && n.peers == next.Keys - {m} && n.offers.Keys == next.Keys
    && !AllEqual(n) && MaxRound(n) == next[m]
    && forall k | k in next && k != m && next[k] >= INT_LIMIT :: n.offers[k] == NO_OFFER
  }

  /** A fresh member neither decides nor changes its round: its peers' offers are empty. */
  lemma FreshMember(globals: map<Mac, nat>, m: Mac)
    requires |globals| >= 2 && Distinct(Begun(globals)) && m in globals
    ensures Announces(Started(globals[m], globals.Keys - {m}, m), m, Begun(globals))
  {
    hide Nominee, MaxRound, IsMaxRound;
    var n := Started(globals[m], globals.Keys - {m}, m);
    var rounds := Begun(globals);
    assert globals.Keys - {m} + {m} == globals.Keys == rounds.Keys;
    assert |globals.Keys| == |globals| && |rounds.Keys| == |rounds|;
    TwoMembers(rounds, m);
    var other :| other in rounds && other != m;
    VoteIsNotEmpty(rounds, m);
    assert n.offers.Keys == globals.Keys;
    assert n.offers[other] == NO_OFFER && n.offers[m] == Vote(rounds.Keys, rounds[m]);
    OwnRoundIsHighest(n, m);
  }

  lemma OwnRoundIsHighest(n: Node, m: Mac)
    requires m in n.offers && n.offers[m].round == n.round
    requires forall k | k in n.offers && k != m :: n.offers[k].round == 0
    ensures MaxRound(n) == n.round
  {
    MaxRoundIsUnique(n, MaxRound(n), n.round);
  }

  /** All members stand at one round, and the ballot for it arrives as it was sent. */
  ghost predicate Settled(rounds: Starts) {
    AllSame(rounds) && forall m | m in rounds :: Survives(rounds.Keys, rounds[m])
  }

  /** The offer known of another member equals the own one. */
  ghost predicate Matches(rounds: Starts, m: Mac, k: Mac)
    requires m in rounds && k in rounds
  {
    if rounds[k] < INT_LIMIT then rounds[k] == rounds[m] && Survives(rounds.Keys, rounds[m])
    else Vote(rounds.Keys, rounds[m]) == NO_OFFER
  }

  /**
   A member that knows what can be known finds all offers equal just if the others stand at its round and the
   ballot for it arrives as it was sent, or theirs do not arrive and its own looks like an empty one.
   */
  lemma KnowerDecides(rounds: Starts, m: Mac)
    requires m in rounds
    ensures AllEqual(Knower(rounds, m)) <==> forall k | k in rounds && k != m :: Matches(rounds, m, k)
  {
    hide Nominee, Survives, RereadContent;
    var n := Knower(rounds, m);
    forall k | k in rounds && k != m
      ensures n.offers[k] == n.offers[m] <==> Matches(rounds, m, k)
    {
      VoteArrives(rounds.Keys, rounds[k]);
    }
  }

  lemma KnowersDecide(rounds: Starts, m: Mac)
    requires |rounds| >= 2 && Distinct(rounds) && m in rounds
    ensures AllEqual(Knower(rounds, m)) <==> Settled(rounds)
  {
    hide Knower, Known, AllEqual, Distinct, Matches;
    TwoMembers(rounds, m);
    KnowerDecides(rounds, m);
    KnowerShape(rounds, m);
    forall k | k in rounds && k != m
      ensures Matches(rounds, m, k) <==> rounds[k] == rounds[m] && Survives(rounds.Keys, rounds[m])
    {
      MatchIs(rounds, m, k);
    }
    SettledFrom(rounds, m);
  }

  lemma MatchIs(rounds: Starts, m: Mac, k: Mac)
    requires Distinct(rounds) && m in rounds && k in rounds
    ensures Matches(rounds, m, k) <==> rounds[k] == rounds[m] && Survives(rounds.Keys, rounds[m])
  {
    hide Vote, Distinct, MessageRoundTrip.PlainMac, Nominee;
    VoteIsNotEmpty(rounds, m);
  }

  lemma SettledFrom(rounds: Starts, m: Mac)
    requires m in rounds && exists other :: other in rounds && other != m
    ensures Settled(rounds)
       <==> forall k | k in rounds && k != m :: rounds[k] == rounds[m] && Survives(rounds.Keys, rounds[m])
  {
    hide Survives;
  }

  lemma SurvivorsAreLow(members: set<Mac>, round: nat)
    requires members != {} && Survives(members, round)
    ensures round < INT_LIMIT
  {
  }

  lemma UnreadIsUnknown(rounds: Starts, m: Mac, k: Mac)
    requires m in rounds && k in rounds && k != m && Next(rounds)[k] >= INT_LIMIT
    ensures Known(rounds, m)[k] == NO_OFFER
  {
    hide Vote, Next;
    NextReadable(rounds, k);
  }

  lemma KnowerShape(rounds: Starts, m: Mac)
    requires m in rounds
    ensures var n := Knower(rounds, m);
      n.localMac == m && n.peers == rounds.Keys - {m} && n.offers == Known(rounds, m) && n.round == rounds[m]
    ensures Known(rounds, m).Keys == rounds.Keys == Next(rounds).Keys
    ensures MaxRound(Knower(rounds, m)) == Next(rounds)[m]
  {
    hide Vote, MaxRound;
  }

  lemma KnowerAnnounces(rounds: Starts, m: Mac)
    requires |rounds| >= 2 && Distinct(rounds) && m in rounds && !Settled(rounds)
    ensures Announces(Knower(rounds, m), m, Next(rounds))
  {
    hide Known, Knower, Next, MaxRound, Settled, AllEqual, Distinct;
    KnowersDecide(rounds, m);
    KnowerShape(rounds, m);
    forall k | k in Next(rounds) && k != m && Next(rounds)[k] >= INT_LIMIT
      ensures Known(rounds, m)[k] == NO_OFFER
    {
      UnreadIsUnknown(rounds, m, k);
    }
  }

  lemma AnnouncerSpeaks(n: Node, m: Mac, next: Starts)
    requires m in next && Announces(n, m, next)
    ensures m in n.offers && MayCheck(m, Negotiating(n)) && Speaks(m, Negotiating(n))
    ensures AfterCheck(m, Negotiating(n)) == Negotiating(Updated(n))
    ensures Updated(n) == n.(round := next[m], offers := n.offers[m := Vote(next.Keys, next[m])])
  {
    hide AllEqual, MaxRound, SortedKeys;
  }

  /** A node that hears what can be read knows what can be known. */
  lemma AnnouncerHears(n: Node, m: Mac, next: Starts, offers: Offers)
    requires m in next && Announces(n, m, next)
    requires offers == map k | k in next :: Vote(next.Keys, next[k])
    ensures Heard(Carried(Negotiating(n)), offers) == Negotiating(Knower(next, m))
  {
    hide Updated, AllEqual, Arrived, MaxRound, Vote, Survives, Nominee, RereadContent;
    AnnouncerSpeaks(n, m, next);
    var heard := Informed(Updated(n), offers);
    forall k | k in next
      ensures heard.offers[k] == Known(next, m)[k]
    {
      VoteArrives(next.Keys, next[k]);
    }
    assert heard.offers == Known(next, m);
  }

  ghost predicate AllAnnounce(members: Members, next: Starts) {
    && members.Keys == next.Keys != {}
    && forall m | m in members :: members[m].Negotiating? && Announces(members[m].node, m, next)
  }

  /** What a check that does not decide makes of a member. */
  ghost function Carried(phase: Phase): Phase {
    if phase.Negotiating? && phase.node.offers != map[] then Negotiating(Updated(phase.node)) else phase
  }

  lemma Broadcasts(members: Members, next: Starts)
    requires AllAnnounce(members, next)
    ensures CanCheck(members)
    ensures forall m | m in members :: Checked(members)[m] == Carried(members[m])
    ensures Broadcast(members) == map k | k in next :: Vote(next.Keys, next[k])
  {
    hide Updated, AllEqual, Vote, Announces, MayCheck, Speaks, AfterCheck;
    forall m | m in members
      ensures m in members[m].node.offers && MayCheck(m, members[m]) && Speaks(m, members[m])
      ensures AfterCheck(m, members[m]) == Carried(members[m])
      ensures m in Updated(members[m].node).offers
      ensures Updated(members[m].node).offers[m] == Vote(next.Keys, next[m])
    {
      AnnouncerSpeaks(members[m].node, m, next);
    }
  }

  /** A round in which nobody decides leaves everybody with all that can be known. */
  lemma RoundKnows(members: Members, next: Starts)
    requires AllAnnounce(members, next)
    ensures CanCheck(members)
    ensures forall m | m in members :: Checked(members)[m].Negotiating?
    ensures Knows(Round(members), next)
  {
    hide *;
    AnnouncersKeys(members, next);
    Broadcasts(members, next);
    var offers := map k | k in next :: Vote(next.Keys, next[k]);
    forall m | m in next
      ensures Heard(Carried(members[m]), offers) == Negotiating(Knower(next, m))
    {
      AnnouncerHears(members[m].node, m, next, offers);
    }
    RoundIs(members, next, offers);
  }

  lemma AnnouncersKeys(members: Members, next: Starts)
    requires AllAnnounce(members, next)
    ensures members.Keys == next.Keys != {}
    ensures forall m | m in members :: members[m].Negotiating? && m in members[m].node.offers
    ensures forall m | m in members :: Announces(members[m].node, m, next) && Carried(members[m]).Negotiating?
  {
    hide Announces, Carried;
    forall m | m in members
      ensures m in members[m].node.offers && Carried(members[m]).Negotiating?
    {
      AnnouncerCarries(members[m], m, next);
    }
  }

  lemma AnnouncerCarries(p: Phase, m: Mac, next: Starts)
    requires p.Negotiating? && m in next && Announces(p.node, m, next)
    ensures m in p.node.offers && Carried(p).Negotiating?
  {
    hide Updated, AllEqual, Vote;
  }

  lemma RoundIs(members: Members, next: Starts, offers: Offers)
    requires CanCheck(members) && members.Keys == next.Keys != {}
    requires forall m | m in members :: members[m].Negotiating? && m in members[m].node.offers
    requires forall m | m in members :: Checked(members)[m] == Carried(members[m])
    requires Broadcast(members) == offers
    requires forall m | m in next :: Heard(Carried(members[m]), offers) == Negotiating(Knower(next, m))
    ensures Knows(Round(members), next)
  {
    hide Carried, Heard, Knower, Broadcast, AfterCheck, MayCheck;
    forall m | m in members
      ensures Round(members)[m] == Negotiating(Knower(next, m))
    {
      assert Checked(members)[m] == AfterCheck(m, members[m]);
    }
  }

  /**
   Nobody decides at the first check just if no own offer looks like an empty one; then the first round only
   spreads the starting rounds, as far as they can be read.
   */
  lemma FirstRound(globals: map<Mac, nat>)
    requires |globals| >= 2
    ensures CanCheck(StartAll(globals)) && Checked(StartAll(globals)).Keys == globals.Keys
    ensures (forall m | m in globals :: Checked(StartAll(globals))[m].Negotiating?) <==> Distinct(Begun(globals))
    ensures Distinct(Begun(globals)) ==> Knows(Round(StartAll(globals)), Begun(globals))
  {
    hide Started, Knows, Checked, Round, Distinct, Speaks, AfterCheck, MayCheck;
    var members := StartAll(globals);
    BegunFacts(globals);
    if Distinct(Begun(globals)) {
      StartsSpread(globals);
    } else {
      var m := ZeroAmongEmpty(globals);
      ZeroDecides(globals, m);
      CheckedIs(members, m);
    }
  }

  lemma ZeroAmongEmpty(globals: map<Mac, nat>) returns (m: Mac)
    requires !Distinct(Begun(globals))
    ensures "" in globals && m in globals && Begun(globals)[m] == 0
  {
    m :| m in Begun(globals) && Begun(globals)[m] == 0;
  }

  lemma StartsSpread(globals: map<Mac, nat>)
    requires |globals| >= 2 && Distinct(Begun(globals))
    ensures CanCheck(StartAll(globals)) && Checked(StartAll(globals)).Keys == globals.Keys
    ensures forall m | m in globals :: Checked(StartAll(globals))[m].Negotiating?
    ensures Knows(Round(StartAll(globals)), Begun(globals))
  {
    hide Started, Announces, Knows, Checked, Round, Distinct;
    var members := StartAll(globals);
    var rounds := Begun(globals);
    assert members.Keys == rounds.Keys == globals.Keys;
    assert |globals.Keys| == |globals|;
    forall m | m in members
      ensures Announces(members[m].node, m, rounds)
    {
      FreshMember(globals, m);
    }
    RoundKnows(members, rounds);
  }

  /**
   Members that know what can be known decide if all stand at one round for which the ballot arrives as it was
   sent, and otherwise go on at the highest round each of them can read or stands at.
   */
  lemma NextRound(members: Members, rounds: Starts)
    requires Knows(members, rounds) && |rounds| >= 2 && Distinct(rounds)
    ensures CanCheck(members)
    ensures Settled(rounds) ==>
      forall m | m in members :: Checked(members)[m] == Playing(Nominee(rounds.Keys, rounds[m]), rounds[m])
    ensures !Settled(rounds) ==> forall m | m in members :: Checked(members)[m].Negotiating?
    ensures !Settled(rounds) ==> Knows(Round(members), Next(rounds))
  {
    hide Settled, Distinct, Announces, Checked, Round, Knower, MaxRound;
    if Settled(rounds) {
      AllDecide(members, rounds);
    } else {
      NextDistinct(rounds);
      forall m | m in members
        ensures Announces(members[m].node, m, Next(rounds))
      {
        KnowerAnnounces(rounds, m);
      }
      RoundKnows(members, Next(rounds));
    }
  }

  lemma AllDecide(members: Members, rounds: Starts)
    requires Knows(members, rounds) && |rounds| >= 2 && Distinct(rounds) && Settled(rounds)
    ensures CanCheck(members)
    ensures forall m | m in members :: Checked(members)[m] == Playing(Nominee(rounds.Keys, rounds[m]), rounds[m])
  {
    hide Nominee, Updated, AllEqual, Settled, Distinct;
    forall m | m in members
      ensures AllEqual(members[m].node)
    {
      KnowersDecide(rounds, m);
    }
  }

  // ----- convergence -----

  lemma {:induction false} LargestExists(rounds: Starts, keys: set<Mac>) returns (largest: nat)
    requires keys == rounds.Keys != {}
    ensures IsLargest(rounds, largest)
    decreases keys
  {
    var m :| m in keys;
    var rest := rounds - {m};
    if rest.Keys == {} {
      assert keys == {m};
      largest := rounds[m];
    } else {
      var below := LargestExists(rest, keys - {m});
      largest := if below >= rounds[m] then below else rounds[m];
      var top :| top in rest && rest[top] == below;
      assert rounds[top] == below;
      assert forall k | k in rounds :: k == m || (k in rest && rest[k] == rounds[k]);
    }
    assert largest in rounds.Values;
  }

  lemma KnowsKeys(members: Members, rounds: Starts)
    requires Knows(members, rounds)
    ensures members.Keys == rounds.Keys && |members| == |rounds|
  {
    assert |members.Keys| == |members| && |rounds.Keys| == |rounds|;
  }

  lemma StartMayCheck(globals: map<Mac, nat>, m: Mac)
    requires m in globals
    ensures MayCheck(m, Negotiating(Started(globals[m], globals.Keys - {m}, m)))
  {
    hide Nominee;
  }

  lemma BegunFacts(globals: map<Mac, nat>)
    requires |globals| >= 2
    ensures Begun(globals).Keys == globals.Keys != {} && |Begun(globals)| == |globals| >= 2
    ensures CanCheck(StartAll(globals)) && StartAll(globals).Keys == globals.Keys
  {
    hide Started, MayCheck;
    assert |Begun(globals).Keys| == |Begun(globals)| && |globals.Keys| == |globals|;
    forall m | m in globals
      ensures MayCheck(m, StartAll(globals)[m])
    {
      StartMayCheck(globals, m);
    }
  }

  /** The outcome of the check behind `n` rounds. */
  ghost function CheckOf(globals: map<Mac, nat>, n: nat): (after: Members)
    requires |globals| >= 2
    ensures after.Keys == globals.Keys
  {
    BegunFacts(globals);
    Checked(Rounds(StartAll(globals), n))
  }

  /** At the check behind `n` rounds everybody goes on negotiating. */
  ghost predicate AllGoOn(globals: map<Mac, nat>, n: nat)
    requires |globals| >= 2
  {
    forall m | m in globals :: CheckOf(globals, n)[m].Negotiating?
  }

  /** At the check behind `n` rounds everybody has decided for the nominee of a round. */
  ghost predicate AllDecideOn(globals: map<Mac, nat>, n: nat, round: nat)
    requires |globals| >= 2 && globals.Keys != {}
  {
    forall m | m in globals :: CheckOf(globals, n)[m] == Playing(Nominee(globals.Keys, round), round)
  }

  /** Nobody decides at the first check, all at the second just if they started alike, and all by the third. */
  ghost predicate SettlesOn(globals: map<Mac, nat>, round: nat)
    requires |globals| >= 2 && globals.Keys != {}
  {
    && AllGoOn(globals, 0)
    && (if AllSame(Begun(globals)) then AllDecideOn(globals, 1, round) else AllGoOn(globals, 1))
    && AllDecideOn(globals, 2, round)
  }

  lemma CheckOfIs(globals: map<Mac, nat>, n: nat)
    requires |globals| >= 2
    ensures CanCheck(StartAll(globals)) && CheckOf(globals, n) == Checked(Rounds(StartAll(globals), n))
  {
    hide CanCheck, Checked, Rounds;
    BegunFacts(globals);
  }

  /** Members never decide when the ballot for the largest of their rounds does not arrive as it was sent. */
  lemma {:induction false} NeverDecides(members: Members, rounds: Starts, largest: nat, n: nat)
    requires Knows(members, rounds) && |rounds| >= 2 && Distinct(rounds)
    requires IsLargest(rounds, largest) && !Survives(rounds.Keys, largest)
    ensures CanCheck(members)
    ensures forall m | m in members :: Rounds(members, n)[m].Negotiating? && Checked(Rounds(members, n))[m].Negotiating?
    decreases n
  {
    hide *;
    NextRound(members, rounds);
    NotSettled(rounds, largest);
    KnowsKeys(members, rounds);
    if n == 0 {
      AllNegotiate(members, rounds);
      RoundsNone(members);
    } else {
      NextDistinct(rounds);
      NextLargest(rounds, largest);
      SameSize(Next(rounds), rounds);
      RoundsOnce(members, n);
      NeverDecides(Round(members), Next(rounds), largest, n - 1);
    }
  }

  lemma SameSize(a: Starts, b: Starts)
    requires a.Keys == b.Keys
    ensures |a| == |b|
  {
    assert |a.Keys| == |a| && |b.Keys| == |b|;
  }

  lemma NotSettled(rounds: Starts, largest: nat)
    requires IsLargest(rounds, largest) && !Survives(rounds.Keys, largest)
    ensures !Settled(rounds)
  {
    hide Survives;
    var top :| top in rounds && rounds[top] == largest;
  }

  lemma AllNegotiate(members: Members, rounds: Starts)
    requires Knows(members, rounds)
    ensures forall m | m in members :: members[m].Negotiating?
  {
  }

  /** Members with different rounds go on; members with one round decide if its ballot arrives as it was sent. */
  lemma SettledIs(rounds: Starts, largest: nat)
    requires IsLargest(rounds, largest) && Survives(rounds.Keys, largest)
    ensures Settled(rounds) <==> AllSame(rounds)
    ensures AllSame(rounds) ==> forall m | m in rounds :: rounds[m] == largest
  {
    hide Survives;
    var top :| top in rounds && rounds[top] == largest;
    assert AllSame(rounds) ==> forall m | m in rounds :: rounds[m] == rounds[top];
  }

  lemma EvenSettled(rounds: Starts, largest: nat)
    requires rounds.Keys != {} && Survives(rounds.Keys, largest)
    requires forall m | m in rounds :: rounds[m] == largest
    ensures Settled(rounds)
  {
    hide Survives;
  }

  /**
   Lock-step convergence: nobody decides at the first check; when all starting rounds are equal everybody
   decides at the second check, and otherwise nobody does and everybody decides at the third. The round
   decided on is the largest starting round. All this if the ballot for it arrives as it was sent: if that round
   cannot be read, or the address of its nominee does not survive the serializer, nobody ever decides.
   */
  lemma Converges(globals: map<Mac, nat>, largest: nat)
    requires |globals| >= 2 && Distinct(Begun(globals)) && IsLargest(Begun(globals), largest)
    ensures globals.Keys != {}
    ensures Survives(globals.Keys, largest) ==> SettlesOn(globals, largest)
    ensures !Survives(globals.Keys, largest) ==> forall n: nat :: AllGoOn(globals, n)
  {
    hide *;
    BegunFacts(globals);
    if Survives(globals.Keys, largest) {
      if AllSame(Begun(globals)) {
        SecondDecides(globals, largest);
      } else {
        ThirdDecides(globals, largest);
      }
    } else {
      NobodyEver(globals, largest);
    }
  }

  lemma AllGoOnIs(globals: map<Mac, nat>, n: nat)
    requires |globals| >= 2
    ensures AllGoOn(globals, n) <==> forall m | m in globals :: CheckOf(globals, n)[m].Negotiating?
  {
    hide CheckOf;
  }

  lemma AllDecideOnIs(globals: map<Mac, nat>, n: nat, round: nat)
    requires |globals| >= 2 && globals.Keys != {}
    ensures AllDecideOn(globals, n, round)
       <==> forall m | m in globals :: CheckOf(globals, n)[m] == Playing(Nominee(globals.Keys, round), round)
  {
    hide CheckOf, Nominee;
  }

  lemma Settles(globals: map<Mac, nat>, round: nat)
    requires |globals| >= 2 && globals.Keys != {}
    requires AllGoOn(globals, 0)
    requires if AllSame(Begun(globals)) then AllDecideOn(globals, 1, round) else AllGoOn(globals, 1)
    requires AllDecideOn(globals, 2, round)
    ensures SettlesOn(globals, round)
  {
    hide AllGoOn, AllDecideOn, AllSame, Begun;
  }

  lemma SettledByThird(globals: map<Mac, nat>, round: nat)
    requires |globals| >= 2 && globals.Keys != {} && SettlesOn(globals, round)
    ensures AllDecideOn(globals, 2, round)
  {
    hide AllGoOn, AllDecideOn, AllSame, Begun;
  }

  lemma SecondDecides(globals: map<Mac, nat>, largest: nat)
    requires |globals| >= 2 && Distinct(Begun(globals)) && IsLargest(Begun(globals), largest)
    requires globals.Keys != {} && Survives(globals.Keys, largest) && AllSame(Begun(globals))
    ensures SettlesOn(globals, largest)
  {
    hide *;
    var start, rounds := StartAll(globals), Begun(globals);
    FirstThree(globals);
    FirstRound(globals);
    KnowsKeys(Round(start), rounds);
    SettledIs(rounds, largest);
    NextRound(Round(start), rounds);
    DecidedStays(Round(start), Playing(Nominee(globals.Keys, largest), largest));
    AllGoOnIs(globals, 0);
    AllDecideOnIs(globals, 1, largest);
    AllDecideOnIs(globals, 2, largest);
    Settles(globals, largest);
  }

  lemma ThirdDecides(globals: map<Mac, nat>, largest: nat)
    requires |globals| >= 2 && Distinct(Begun(globals)) && IsLargest(Begun(globals), largest)
    requires globals.Keys != {} && Survives(globals.Keys, largest) && !AllSame(Begun(globals))
    ensures SettlesOn(globals, largest)
  {
    hide *;
    var rounds := Begun(globals);
    FirstThree(globals);
    FirstRound(globals);
    var after := Round(StartAll(globals));
    KnowsKeys(after, rounds);
    SurvivorsAreLow(globals.Keys, largest);
    SettledIs(rounds, largest);
    NextRound(after, rounds);
    NextDistinct(rounds);
    NextLargest(rounds, largest);
    SameSize(Next(rounds), rounds);
    EvenSettled(Next(rounds), largest);
    NextRound(Round(after), Next(rounds));
    KnowsKeys(Round(after), Next(rounds));
    AllGoOnIs(globals, 0);
    AllGoOnIs(globals, 1);
    AllDecideOnIs(globals, 2, largest);
    Settles(globals, largest);
  }

  lemma FirstThree(globals: map<Mac, nat>)
    requires |globals| >= 2
    ensures var start := StartAll(globals);
      && CanCheck(start) && CanCheck(Round(start)) && CanCheck(Round(Round(start)))
      && CheckOf(globals, 0) == Checked(start) && CheckOf(globals, 1) == Checked(Round(start))
      && CheckOf(globals, 2) == Checked(Round(Round(start)))
    ensures Begun(globals).Keys == globals.Keys != {} && |Begun(globals)| == |globals|
  {
    hide CanCheck, Checked, Round, CheckOf, Rounds;
    BegunFacts(globals);
    CheckOfIs(globals, 0);
    CheckOfIs(globals, 1);
    CheckOfIs(globals, 2);
    RoundsNone(StartAll(globals));
    RoundsTwice(StartAll(globals));
  }

  lemma NobodyEver(globals: map<Mac, nat>, largest: nat)
    requires |globals| >= 2 && Distinct(Begun(globals)) && IsLargest(Begun(globals), largest)
    requires globals.Keys != {} && !Survives(globals.Keys, largest)
    ensures forall n: nat :: AllGoOn(globals, n)
  {
    hide *;
    var start, rounds := StartAll(globals), Begun(globals);
    BegunFacts(globals);
    FirstRound(globals);
    forall n: nat
      ensures AllGoOn(globals, n)
    {
      CheckOfIs(globals, n);
      AllGoOnIs(globals, n);
      if n > 0 {
        RoundsOnce(start, n);
        KnowsKeys(Round(start), rounds);
        NeverDecides(Round(start), rounds, largest, n - 1);
      } else {
        RoundsNone(start);
      }
    }
  }

  lemma RoundsNone(members: Members)
    requires CanCheck(members)
    ensures Rounds(members, 0) == members
  {
  }

  lemma RoundsOnce(members: Members, n: nat)
    requires CanCheck(members) && n > 0
    ensures CanCheck(Round(members)) && Rounds(members, n) == Rounds(Round(members), n - 1)
  {
    hide Round, CanCheck;
    RoundChecks(members);
  }

  lemma RoundsTwice(members: Members)
    requires CanCheck(members)
    ensures CanCheck(Round(members)) && CanCheck(Round(Round(members)))
    ensures Rounds(members, 1) == Round(members) && Rounds(members, 2) == Round(Round(members))
  {
    hide Round, CanCheck;
    RoundChecks(members);
    RoundChecks(Round(members));
    RoundsOnce(members, 2);
    RoundsOnce(members, 1);
    RoundsOnce(Round(members), 1);
  }

  /** Members that have decided take part in no further check. */
  lemma DecidedStays(members: Members, decision: Phase)
    requires CanCheck(members) && decision.Playing?
    requires forall m | m in members :: Checked(members)[m] == decision
    ensures CanCheck(Round(members))
    ensures forall m | m in members :: m in Checked(Round(members)) && Checked(Round(members))[m] == decision
  {
  }

  // ----- members that may take empty offers for agreement -----

  /** One member decided unheard, or is about to; another stands above zero and has never heard from it. */
  ghost predicate Stuck(members: Members, silent: Mac, m: Mac) {
    && CanCheck(members) && silent in members && m in members && silent != m
    && !Speaks(silent, members[silent]) && Deaf(members[m], silent, m)
  }

  predicate Deaf(phase: Phase, silent: Mac, m: Mac) {
    && phase.Negotiating? && phase.node.localMac == m
    && var n := phase.node;
      m in n.offers && silent in n.offers && m !in n.peers && n.offers[m].round > 0 && n.offers[silent].round == 0
  }

  lemma SilentStays(silent: Mac, phase: Phase, offers: Offers)
    requires MayCheck(silent, phase) && !Speaks(silent, phase)
    ensures var after := Heard(AfterCheck(silent, phase), offers);
      MayCheck(silent, after) && !Speaks(silent, after)
  {
    hide Updated, AllEqual;
  }

  lemma DeafStays(phase: Phase, silent: Mac, m: Mac, offers: Offers)
    requires Deaf(phase, silent, m) && silent != m && silent !in offers
    ensures MayCheck(m, phase) && AfterCheck(m, phase).Negotiating? && Deaf(Heard(AfterCheck(m, phase), offers), silent, m)
  {
    hide Updated, Arrived;
    assert phase.node.offers[silent] != phase.node.offers[m];
    UpdateRaises(phase.node, m);
  }

  lemma StuckStays(members: Members, silent: Mac, m: Mac)
    requires Stuck(members, silent, m)
    ensures Stuck(Round(members), silent, m) && Checked(members)[m].Negotiating?
  {
    hide Heard, AfterCheck, Deaf, Speaks, MayCheck, Updated;
    RoundChecks(members);
    assert MayCheck(silent, members[silent]);
    SilentStays(silent, members[silent], Broadcast(members));
    DeafStays(members[m], silent, m, Broadcast(members));
  }

  lemma UpdateRaises(n: Node, m: Mac)
    requires m in n.offers && n.localMac == m
    ensures Updated(n).offers.Keys == n.offers.Keys && Updated(n).offers[m].round >= n.offers[m].round
    ensures forall k | k in n.offers && k != m :: Updated(n).offers[k] == n.offers[k]
    ensures Updated(n).localMac == n.localMac && Updated(n).peers == n.peers
  {
    hide Nominee;
  }

  lemma {:induction false} StuckForever(members: Members, silent: Mac, m: Mac, n: nat)
    requires Stuck(members, silent, m)
    ensures m in Checked(Rounds(members, n)) && Checked(Rounds(members, n))[m].Negotiating?
    decreases n
  {
    hide Checked, Round, Speaks, Deaf, CanCheck;
    StuckStays(members, silent, m);
    if n > 0 {
      RoundsOnce(members, n);
      StuckForever(Round(members), silent, m, n - 1);
    } else {
      RoundsNone(members);
    }
  }

  /** A member that starts at zero among members of which one has an empty address decides at once. */
  lemma ZeroDecides(globals: map<Mac, nat>, m: Mac)
    requires |globals| >= 2 && "" in globals && m in globals && Begun(globals)[m] == 0
    ensures var phase := Negotiating(Started(globals[m], globals.Keys - {m}, m));
      MayCheck(m, phase) && !Speaks(m, phase) && AfterCheck(m, phase) == Playing("", 0)
  {
    hide Nominee;
    var peers := globals.Keys - {m};
    assert |globals.Keys| == |globals| && |peers| == |globals.Keys| - 1;
    assert peers + {m} == globals.Keys;
    EmptyNominee(globals.Keys);
    DecidesUnheard(globals[m], peers, m);
  }

  lemma StartsDeaf(globals: map<Mac, nat>, silent: Mac, m: Mac)
    requires m in globals && silent in globals && silent != m && Begun(globals)[m] > 0
    ensures Deaf(Negotiating(Started(globals[m], globals.Keys - {m}, m)), silent, m)
  {
    hide Nominee;
  }

  lemma ZerosDecide(globals: map<Mac, nat>)
    requires |globals| >= 2 && "" in globals && forall m | m in globals :: Begun(globals)[m] == 0
    ensures forall m | m in globals :: CheckOf(globals, 2)[m] == Playing("", 0)
  {
    hide Started, Checked, Round, CanCheck, MayCheck, AfterCheck, Speaks, CheckOf;
    var start := StartAll(globals);
    FirstThree(globals);
    forall m | m in globals
      ensures m in Checked(start) && Checked(start)[m] == Playing("", 0)
    {
      ZeroDecides(globals, m);
      CheckedIs(start, m);
    }
    DecidedStays(start, Playing("", 0));
    DecidedStays(Round(start), Playing("", 0));
  }

  lemma CheckedIs(members: Members, m: Mac)
    requires CanCheck(members) && m in members
    ensures MayCheck(m, members[m]) && m in Checked(members) && Checked(members)[m] == AfterCheck(m, members[m])
  {
    hide AfterCheck;
  }

  lemma OneIsStuck(globals: map<Mac, nat>) returns (m: Mac)
    requires |globals| >= 2 && !Distinct(Begun(globals)) && !AllSame(Begun(globals))
    ensures m in globals && forall n: nat :: CheckOf(globals, n)[m].Negotiating?
  {
    hide Started, Checked, Round, CanCheck, MayCheck, AfterCheck, Speaks, Deaf, Rounds, CheckOf;
    var start, rounds := StartAll(globals), Begun(globals);
    BegunFacts(globals);
    var silent :| silent in rounds && rounds[silent] == 0;
    var a, b :| a in rounds && b in rounds && rounds[a] != rounds[b];
    m := if rounds[a] > 0 then a else b;
    ZeroDecides(globals, silent);
    StartsDeaf(globals, silent, m);
    forall n: nat
      ensures CheckOf(globals, n)[m].Negotiating?
    {
      CheckOfIs(globals, n);
      StuckForever(start, silent, m, n);
    }
  }

  /** A condition on the starting rounds and the addresses alone. */
  ghost predicate Converging(starts: Starts) {
    if Distinct(starts) then exists largest :: IsLargest(starts, largest) && Survives(starts.Keys, largest)
    else AllSame(starts)
  }

  /** Everybody has decided at the third check. */
  ghost predicate AllPlay(globals: map<Mac, nat>)
    requires |globals| >= 2
  {
    forall m | m in globals :: CheckOf(globals, 2)[m].Playing?
  }

  /** Somebody negotiates at every check. */
  ghost predicate GoesOn(globals: map<Mac, nat>)
    requires |globals| >= 2
  {
    exists m :: m in globals && forall n: nat :: CheckOf(globals, n)[m].Negotiating?
  }

  /**
   Whatever the starting rounds and the addresses: either everybody has decided at the third check, or somebody
   never decides, and the starting rounds and the nominee of the largest one tell which.
   */
  lemma EverybodyDecides(globals: map<Mac, nat>)
    requires |globals| >= 2
    ensures AllPlay(globals) <==> Converging(Begun(globals))
    ensures GoesOn(globals) <==> !Converging(Begun(globals))
  {
    hide *;
    var rounds := Begun(globals);
    BegunFacts(globals);
    if Distinct(rounds) {
      var largest := LargestExists(rounds, globals.Keys);
      ReadableIs(rounds, largest);
      Converges(globals, largest);
      AllDecideOnIs(globals, 2, largest);
      if Survives(globals.Keys, largest) {
        SettledByThird(globals, largest);
        Ends(globals);
      } else {
        var m :| m in globals;
        forall n: nat
          ensures CheckOf(globals, n)[m].Negotiating?
        {
          AllGoOnIs(globals, n);
        }
        Continues(globals, m);
      }
    } else if AllSame(rounds) {
      ZerosAre(rounds);
      ZerosDecide(globals);
      Ends(globals);
      NotDistinctIs(rounds);
    } else {
      var m := OneIsStuck(globals);
      Continues(globals, m);
      NotDistinctIs(rounds);
    }
  }

  lemma ReadableIs(rounds: Starts, largest: nat)
    requires Distinct(rounds) && IsLargest(rounds, largest)
    ensures rounds.Keys != {}
    ensures Converging(rounds) <==> Survives(rounds.Keys, largest)
  {
    hide Survives, Distinct, IsLargest;
    assert rounds.Keys != {} by { LargestIsSome(rounds, largest); }
    if Converging(rounds) {
      var other :| IsLargest(rounds, other) && Survives(rounds.Keys, other);
      LargestIsUnique(rounds, largest, other);
    }
  }

  lemma LargestIsSome(rounds: Starts, largest: nat)
    requires IsLargest(rounds, largest)
    ensures rounds.Keys != {}
  {
    var top :| top in rounds && rounds[top] == largest;
  }

  lemma NotDistinctIs(rounds: Starts)
    requires !Distinct(rounds)
    ensures Converging(rounds) <==> AllSame(rounds)
  {
  }

  lemma ZerosAre(rounds: Starts)
    requires !Distinct(rounds) && AllSame(rounds)
    ensures "" in rounds && forall m | m in rounds :: rounds[m] == 0
  {
  }

  lemma Ends(globals: map<Mac, nat>)
    requires |globals| >= 2 && forall m | m in globals :: CheckOf(globals, 2)[m].Playing?
    ensures AllPlay(globals) && !GoesOn(globals)
  {
    hide CheckOf;
  }

  lemma Continues(globals: map<Mac, nat>, m: Mac)
    requires |globals| >= 2 && m in globals && forall n: nat :: CheckOf(globals, n)[m].Negotiating?
    ensures !AllPlay(globals) && GoesOn(globals)
  {
    hide CheckOf;
    assert CheckOf(globals, 2)[m].Negotiating?;
  }
}
