/** One peer choosing the generator: its offers, its round and what the events do to them. */
module Negotiation {
  import opened Macs
  import opened Text
  import opened Decimal
  import Messages
  import MessageRoundTrip
  import XmlTree

  /** `dice::Offer`. */
  datatype Ballot = Ballot(mac: Mac, round: nat)

  type Offers = map<Mac, Ballot>

  /** The state of one negotiation; `round` is the global `g_negotiationRound`. */
  datatype Node = Node(localMac: Mac, peers: set<Mac>, offers: Offers, round: nat)

  const NO_OFFER := Ballot("", 0)

  /** `GetLocalOfferMac`: the member at index round modulo size, in map order. */
  ghost function Nominee(members: set<Mac>, round: nat): Mac
    requires members != {}
  {
    SortedKeys(members)[round % |members|]
  }

  /** The nominee is the member that round modulo size members come before. */
  lemma NomineeRank(members: set<Mac>, round: nat)
    requires members != {}
    ensures Nominee(members, round) in members && Rank(members, Nominee(members, round)) == round % |members|
  {
    RankOfSorted(members, round % |members|);
  }

  // ----- the operations as functions of the state -----

  ghost function Started(globalRound: nat, peers: set<Mac>, localMac: Mac): Node {
    var round := (globalRound + 1) % UINT32_RANGE;
    var empty := map mac | mac in peers :: NO_OFFER;
    var members := peers + {localMac};
    Node(localMac, peers, empty[localMac := Ballot(Nominee(members, round), round)], round)
  }

  /** An offer after its way through the serializer; None when the receiver cannot read it. */
  function Arrived(offer: Ballot): Option<Ballot> {
    if offer.round >= UINT32_RANGE then None
    else
      match MessageRoundTrip.Received(Messages.Offer(offer.mac, offer.round))
      case Ok(m) => if m.Offer? then Some(Ballot(m.mac, m.round)) else None
      case Err(_) => None
  }

  function Receive(n: Node, sender: Mac, offer: Ballot): Node {
    if sender !in n.peers then n
    else
      match Arrived(offer)
      case None => n
      case Some(o) => n.(offers := n.offers[sender := o])
  }

  /** The handler reads a message of any kind; only the offers of peers change anything. */
  function Hear(n: Node, sender: Mac, message: string): Node {
    if sender !in n.peers then n
    else
      match Messages.Deserialize(message)
      case Ok(m) => if m.Offer? then n.(offers := n.offers[sender := Ballot(m.mac, m.round)]) else n
      case Err(_) => n
  }

  /** A text that an offer may be sent as. */
  ghost predicate Carries(message: string, offer: Ballot) {
    && offer.round < UINT32_RANGE && NUL !in offer.mac
    && XmlTree.Prints(message, Messages.ElementOf(Messages.Offer(offer.mac, offer.round)))
  }

  /** Hearing a serialized offer, in whatever attribute order, is receiving it. */
  lemma HearIsReceive(n: Node, sender: Mac, message: string, offer: Ballot)
    requires Carries(message, offer)
    ensures Hear(n, sender, message) == Receive(n, sender, offer)
  {
    hide Messages.Deserialize, Messages.ElementOf, XmlTree.Prints, MessageRoundTrip.Received;
    MessageRoundTrip.DeserializeSerialized(Messages.Offer(offer.mac, offer.round), message);
  }

  function Without(n: Node, mac: Mac): Node {
    n.(peers := n.peers - {mac}, offers := n.offers - {mac})
  }

  /** A read failure of a peer; strangers are ignored. */
  function ReadFailure(n: Node, from: Mac): Node {
    if from in n.peers then Without(n, from) else n
  }

  predicate AllEqual(n: Node)
    requires n.localMac in n.offers
  {
    forall mac | mac in n.offers :: n.offers[mac] == n.offers[n.localMac]
  }

  predicate IsMaxRound(n: Node, round: nat) {
    && round >= n.round && (forall mac | mac in n.offers :: round >= n.offers[mac].round)
    && (round == n.round || exists mac | mac in n.offers :: round == n.offers[mac].round)
  }

  /** The highest round among the offers, or the global one if that is higher. */
  ghost function MaxRound(n: Node): (round: nat)
    ensures IsMaxRound(n, round)
  {
    MaxRoundExists(n, n.offers.Keys);
    var round: nat :| IsMaxRound(n, round);
    round
  }

  lemma {:induction false} MaxRoundExists(n: Node, keys: set<Mac>)
    requires keys == n.offers.Keys
    ensures exists round: nat :: IsMaxRound(n, round)
    decreases keys
  {
    if keys == {} {
      assert IsMaxRound(n, n.round);
    } else {
      var mac :| mac in keys;
      var smaller := n.(offers := n.offers - {mac});
      MaxRoundExists(smaller, keys - {mac});
      var round: nat :| IsMaxRound(smaller, round);
      var best := if round >= n.offers[mac].round then round else n.offers[mac].round;
      assert best == n.offers[mac].round || best == round;
      if best == round && round != n.round {
        var m :| m in smaller.offers && round == smaller.offers[m].round;
        assert m in n.offers && n.offers[m] == smaller.offers[m];
      }
      assert forall m | m in n.offers :: m == mac || (m in smaller.offers && n.offers[m] == smaller.offers[m]);
      assert IsMaxRound(n, best);
    }
  }

  /** Adopting the highest round and nominating by it. */
  ghost function Updated(n: Node): Node
    requires n.offers != map[]
  {
    var round := MaxRound(n);
    n.(round := round, offers := n.offers[n.localMac := Ballot(Nominee(n.offers.Keys, round), round)])
  }

  // ----- the state object -----

  class StateNegotiating {
    var localMac: Mac
    var peers: set<Mac>
    var offers: Offers
    var round: nat

    ghost function View(): Node
      reads this
    {
      Node(localMac, peers, offers, round)
    }

    constructor (globalRound: nat, peers: set<Mac>, localMac: Mac)
      ensures View() == Started(globalRound, peers, localMac)
      ensures round == (globalRound + 1) % UINT32_RANGE && offers.Keys == peers + {localMac}
      ensures offers[localMac].round == round && Rank(offers.Keys, offers[localMac].mac) == round % |offers|
      ensures forall mac | mac in peers && mac != localMac :: offers[mac] == NO_OFFER
    {
      this.localMac := localMac;
      this.peers := peers;
      this.round := (globalRound + 1) % UINT32_RANGE;
      this.offers := (map mac | mac in peers :: NO_OFFER)[localMac := NO_OFFER];
      new;
      assert offers.Keys == peers + {localMac};
      var mac := GetLocalOfferMac();
      ghost var keys := offers.Keys;
      offers := offers[localMac := Ballot(mac, round)];
      assert offers.Keys == keys;
    }

    method GetLocalOfferMac() returns (mac: Mac)
      requires offers != map[]
      ensures mac == Nominee(offers.Keys, round)
      ensures mac in offers && Rank(offers.Keys, mac) == round % |offers|
    {
      NotEmpty(offers);
      NomineeRank(offers.Keys, round);
      mac := Nth(offers.Keys, round % |offers.Keys|);
    }

    method OnMessageReceived(sender: Mac, message: string)
      modifies this
      ensures View() == Hear(old(View()), sender, message)
      ensures localMac == old(localMac) && peers == old(peers) && round == old(round)
      ensures offers.Keys <= old(offers.Keys) + {sender}
      ensures forall mac | mac in old(offers) :: mac in offers && (mac != sender ==> offers[mac] == old(offers)[mac])
      ensures var m := Messages.Deserialize(message);
        offers == if sender in peers && m.Ok? && m.value.Offer?
                  then old(offers)[sender := Ballot(m.value.mac, m.value.round)] else old(offers)
      ensures old(Consistent(View())) ==> Consistent(View()) && round == old(round)
    {
      hide Messages.Deserialize;
      if sender !in peers {
        return;
      }
      var decoded := Messages.Deserialize(message);
      if decoded.Ok? && decoded.value.Offer? {
        offers := offers[sender := Ballot(decoded.value.mac, decoded.value.round)];
      }
    }

    method OnSocketReadFailure(from: Mac)
      modifies this
      ensures View() == ReadFailure(old(View()), from)
      ensures localMac == old(localMac) && round == old(round) && peers == old(peers) - {from}
      ensures offers == if from in old(peers) then old(offers) - {from} else old(offers)
      ensures old(Consistent(View())) ==> Consistent(View()) && round == old(round)
      ensures old(Consistent(View())) ==> from !in peers && (from == localMac || from !in offers)
    {
      if from in peers {
        peers := peers - {from};
        offers := offers - {from};
      }
    }

    /** The end of SendOffer when the connection is gone. */
    method OnSendFailure(receiver: Mac)
      modifies this
      ensures View() == Without(old(View()), receiver)
      ensures localMac == old(localMac) && round == old(round)
      ensures peers == old(peers) - {receiver} && offers == old(offers) - {receiver}
      ensures old(Consistent(View())) && receiver != localMac ==> Consistent(View()) && round == old(round)
      ensures receiver !in peers && receiver !in offers
    {
      peers := peers - {receiver};
      offers := offers - {receiver};
    }

    /** One turn of UpdateAndBroadcastOffer up to the broadcast: decide, or update the local offer. */
    method CheckAndUpdate() returns (decided: bool)
      requires localMac in offers
      modifies this
      ensures decided == AllEqual(old(View()))
      ensures View() == if decided then old(View()) else Updated(old(View()))
      ensures decided <==> forall mac | mac in old(offers) :: old(offers)[mac] == old(offers)[localMac]
      ensures localMac == old(localMac) && peers == old(peers) && offers.Keys == old(offers.Keys)
      ensures decided ==> offers == old(offers) && round == old(round)
      ensures !decided ==>
        && round >= old(round) && (forall mac | mac in offers :: round >= old(offers)[mac].round)
        && (round == old(round) || exists mac | mac in offers :: round == old(offers)[mac].round)
        && offers[localMac].round == round && Rank(offers.Keys, offers[localMac].mac) == round % |offers|
        && forall mac | mac in offers && mac != localMac :: offers[mac] == old(offers)[mac]
      ensures old(Consistent(View())) ==> Consistent(View()) && round >= old(round)
    {
      hide Nominee, IsMaxRound, SortedKeys;
      decided := forall mac | mac in offers :: offers[mac] == offers[localMac];
      if decided {
        return;
      }
      var maxRound := HighestRound();
      HighestIsNotLower(View());
      ghost var keys := offers.Keys;
      if maxRound > round {
        round := maxRound;
      }
      offers := offers[localMac := Ballot(offers[localMac].mac, round)];
      assert offers.Keys == keys;
      var mac := GetLocalOfferMac();
      offers := offers[localMac := Ballot(mac, offers[localMac].round)];
    }

    /** One event after another, as they come in. */
    method HandleAll(events: seq<Event>)
      modifies this
      ensures View() == AfterAll(old(View()), events)
      ensures old(Consistent(View())) && (forall k | 0 <= k < |events| :: Possible(old(View()), events[k])) ==>
        Consistent(View()) && round >= old(round)
    {
      hide Hear, Updated, AllEqual, ReadFailure, Without, Consistent;
      if Consistent(View()) && forall k | 0 <= k < |events| :: Possible(View(), events[k]) {
        EventsKeep(View(), events);
      }
      var i := 0;
      assert events[0..] == events;
      while i < |events|
        invariant i <= |events| && AfterAll(View(), events[i..]) == AfterAll(old(View()), events)
      {
        assert events[i..][0] == events[i] && events[i..][1..] == events[i + 1..];
        match events[i] {
          case Message(sender, text) => OnMessageReceived(sender, text);
          case ReadError(from) => OnSocketReadFailure(from);
          case SendError(receiver) => OnSendFailure(receiver);
          case Turn =>
            if localMac in offers {
              var _ := CheckAndUpdate();
            }
        }
        i := i + 1;
      }
    }

    method HighestRound() returns (maxRound: nat)
      ensures maxRound == MaxRound(View())
    {
      maxRound := round;
      var left := offers.Keys;
      while left != {}
        invariant left <= offers.Keys
        invariant maxRound >= round && forall mac | mac in offers.Keys - left :: maxRound >= offers[mac].round
        invariant maxRound == round || exists mac | mac in offers :: maxRound == offers[mac].round
        decreases left
      {
        var mac :| mac in left;
        if offers[mac].round > maxRound {
          maxRound := offers[mac].round;
        }
        left := left - {mac};
      }
      MaxRoundIsUnique(View(), maxRound, MaxRound(View()));
    }
  }

  lemma HighestIsNotLower(n: Node)
    ensures MaxRound(n) >= n.round && forall mac | mac in n.offers :: MaxRound(n) >= n.offers[mac].round
    ensures MaxRound(n) == n.round || exists mac | mac in n.offers :: MaxRound(n) == n.offers[mac].round
  {
  }

  lemma NotEmpty(offers: Offers)
    requires offers != map[]
    ensures offers.Keys != {} && |offers.Keys| == |offers| > 0
  {
  }

  lemma MaxRoundIsUnique(n: Node, a: nat, b: nat)
    requires IsMaxRound(n, a) && IsMaxRound(n, b)
    ensures a == b
  {
  }

  // ----- what every event keeps -----

  /** Offers from exactly the members, the local one at the global round. */
  predicate Consistent(n: Node) {
    && n.localMac !in n.peers
    && n.offers.Keys == n.peers + {n.localMac}
    && n.offers[n.localMac].round == n.round
  }

  datatype Event =
    | Message(sender: Mac, text: string)
    | ReadError(from: Mac)
    | SendError(receiver: Mac)
    | Turn

  /** Messages for devices that were never peers are not sent. */
  predicate Possible(n: Node, e: Event) {
    e.SendError? ==> e.receiver != n.localMac
  }

  ghost function After(n: Node, e: Event): Node {
    match e
    case Message(sender, text) => Hear(n, sender, text)
    case ReadError(from) => ReadFailure(n, from)
    case SendError(receiver) => Without(n, receiver)
    case Turn => if n.localMac !in n.offers || AllEqual(n) then n else Updated(n)
  }

  ghost function AfterAll(n: Node, events: seq<Event>): Node
    decreases |events|
  {
    if events == [] then n else AfterAll(After(n, events[0]), events[1..])
  }

  lemma StartIsConsistent(globalRound: nat, peers: set<Mac>, localMac: Mac)
    requires localMac !in peers
    ensures Consistent(Started(globalRound, peers, localMac))
  {
  }

  lemma EventKeeps(n: Node, e: Event)
    requires Consistent(n) && Possible(n, e)
    ensures Consistent(After(n, e)) && After(n, e).localMac == n.localMac && After(n, e).round >= n.round
    ensures After(n, e).peers <= n.peers
  {
    hide Messages.Deserialize, Nominee, AllEqual, IsMaxRound, MaxRound;
    if e.Turn? && n.offers != map[] {
      UpdateKeeps(n);
    }
  }

  lemma UpdateKeeps(n: Node)
    requires Consistent(n)
    ensures n.offers != map[] && Consistent(Updated(n)) && Updated(n).round >= n.round
    ensures Updated(n).localMac == n.localMac && Updated(n).peers == n.peers
  {
    hide Nominee;
    assert n.localMac in n.offers;
  }

  /** Before a decision every sequence of events keeps the node consistent and never lowers its round. */
  lemma {:induction false} EventsKeep(n: Node, events: seq<Event>)
    requires Consistent(n) && forall k | 0 <= k < |events| :: Possible(n, events[k])
    ensures Consistent(AfterAll(n, events)) && AfterAll(n, events).round >= n.round
    ensures AfterAll(n, events).localMac == n.localMac && AfterAll(n, events).peers <= n.peers
    decreases |events|
  {
    hide Consistent, After;
    if events != [] {
      EventKeeps(n, events[0]);
      var next := After(n, events[0]);
      forall k | 0 <= k < |events| - 1
        ensures Possible(next, events[1..][k])
      {
        assert Possible(n, events[k + 1]);
      }
      EventsKeep(next, events[1..]);
    }
  }

  /** From the start on, whatever happens before the decision: the node is consistent and its round not lowered. */
  lemma BeforeDecision(globalRound: nat, peers: set<Mac>, localMac: Mac, events: seq<Event>)
    requires localMac !in peers
    requires var start := Started(globalRound, peers, localMac);
      forall k | 0 <= k < |events| :: Possible(start, events[k])
    ensures var n := AfterAll(Started(globalRound, peers, localMac), events);
      && n.peers <= peers && n.offers.Keys == n.peers + {localMac}
      && n.offers[localMac].round == n.round >= (globalRound + 1) % UINT32_RANGE
  {
    hide AfterAll, Nominee;
    StartIsConsistent(globalRound, peers, localMac);
    EventsKeep(Started(globalRound, peers, localMac), events);
  }
}
