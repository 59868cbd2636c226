/** A request from the player to the generator and the answer on its way back. */
module Exchange {
  import opened Text
  import opened XmlTree
  import opened Decimal
  import opened Messages
  import opened MessageRoundTrip
  import opened Engine

  /** Whether a response answers the request that is still pending, if any. */
  predicate Matches(response: Message, request: Option<Message>) {
    && response.Response?
    && request.Some? && request.value.Request?
    && response.cast.kind == request.value.cast.kind
    && |response.cast.values| == |request.value.cast.values|
    && (response.successCount.Some? <==> request.value.threshold.Some?)
  }

  /** The response the generator builds from a roll of the requested dice. */
  function Answer(request: Message, rolled: Cast): Message
    requires request.Request? && |rolled.values| < ULONG_RANGE
  {
    match request.threshold
    case None => Response(rolled, None)
    case Some(threshold) =>
      AtMostAll(rolled.values, threshold);
      Response(rolled, Some(|Successes(rolled.values, threshold)|))
  }

  /** A response the generator may give: the answer with some roll of the requested dice. */
  ghost predicate IsAnswer(response: Message, request: Message)
    requires request.Request?
  {
    exists rolled :: IsRoll(request.cast, rolled) && |rolled.values| < ULONG_RANGE && response == Answer(request, rolled)
  }

  /** The count a response has, if it has one, is that of its own values at the requested threshold. */
  predicate CountsRight(response: Message, request: Message)
    requires response.Response? && request.Request?
  {
    response.successCount.Some? && request.threshold.Some? ==>
      response.successCount.value == |Successes(response.cast.values, request.threshold.value)|
  }

  /**
   A response matches a request exactly if the generator may have given it for that request, as far as rolls and
   counts can be right at all; nothing matches when no request is pending, and only responses match.
   */
  lemma MatchesExactly(response: Message, request: Message)
    requires request.Request?
    ensures !Matches(response, None) && (Matches(response, Some(request)) ==> response.Response?)
    ensures IsAnswer(response, request)
       <==> Matches(response, Some(request)) && IsRoll(response.cast, response.cast)
            && |response.cast.values| < ULONG_RANGE && CountsRight(response, request)
  {
    hide Successes, IsSorted, MaxValue;
    if IsAnswer(response, request) {
      var rolled :| IsRoll(request.cast, rolled) && |rolled.values| < ULONG_RANGE && response == Answer(request, rolled);
      assert rolled == response.cast;
    }
  }

  /** A pending request is not taken for answered by the answer to one for other dice, or with another threshold. */
  lemma OthersDoNotMatch(response: Message, mine: Message, other: Message)
    requires mine.Request? && other.Request? && IsAnswer(response, other)
    requires mine.cast.kind != other.cast.kind || |mine.cast.values| != |other.cast.values|
             || (mine.threshold.Some? != other.threshold.Some?)
    ensures !Matches(response, Some(mine))
  {
    hide Successes, IsSorted, MaxValue;
  }

  method GenerateResponse(request: Message, draws: seq<uint32>) returns (response: Message)
    requires request.Request? && |request.cast.values| < ULONG_RANGE
    requires |draws| == |request.cast.values| && InRange(draws, request.cast.kind)
    ensures IsAnswer(response, request) && multiset(response.cast.values) == multiset(draws)
  {
    var cast := GenerateResult(request.cast, draws);
    if request.threshold.Some? {
      var count := CountSuccesses(cast, request.threshold.value);
      AtMostAll(cast.values, request.threshold.value);
      response := Response(cast, Some(count));
    } else {
      response := Response(cast, None);
    }
    assert IsRoll(request.cast, cast) && response == Answer(request, cast);
  }

  /** The generator reads the request with the same dice and threshold. */
  lemma RequestArrives(request: Message, sent: string)
    requires request.Request? && Sendable(request) && Prints(sent, ElementOf(request))
    ensures Deserialize(sent) == Ok(Request(Cast(request.cast.kind, Zeros(|request.cast.values|)), request.threshold))
  {
    hide Deserialize, Prints, ElementOf;
    DeserializeSerialized(request, sent);
  }

  /**
   A request sent, read by the generator, answered and read back: the answer arrives unchanged, it matches
   the request, and its success count is the number of its values at or above the requested threshold.
   */
  lemma AnswerArrives(request: Message, sent: string, received: Message, response: Message, returned: string)
    requires request.Request? && Sendable(request) && Prints(sent, ElementOf(request))
    requires Deserialize(sent) == Ok(received) && received.Request?
    requires IsAnswer(response, received) && Prints(returned, ElementOf(response))
    ensures Deserialize(returned) == Ok(response) && Matches(response, Some(request))
    ensures IsRoll(request.cast, response.cast)
    ensures request.threshold.Some? ==>
      response.successCount == Some(|Successes(response.cast.values, request.threshold.value)|)
  {
    hide Deserialize, Prints, ElementOf, Successes, IsSorted, MaxValue;
    RequestArrives(request, sent);
    var rolled :| IsRoll(received.cast, rolled) && |rolled.values| < ULONG_RANGE && response == Answer(received, rolled);
    DeserializeSerialized(response, returned);
  }
}
