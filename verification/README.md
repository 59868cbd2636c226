# VeriDie native library: a model of its core

The library lets a group of phones roll dice together over Bluetooth: peers agree on a generator, send it requests
as small XML documents and get the answers back. This project models the parts of its C++ core that keep
state and proves what they are for.

| files | what they model |
|---|---|
| `Text`, `Entities`, `References`, `XmlTags`, `XmlScan`, `XmlTree` | the XML parser and printer: the passes over the list of positions, the stack machine, the recursive printer, entity references |
| `XmlPieces`, `XmlReading`, `XmlRoundTrip`, `XmlDocuments`, `XmlDeclarations`, `XmlOutcomes` | parsing undoes printing, layout does not matter, and what becomes of documents that are not well formed |
| `Substitution`, `XmlMixed` | when references are decoded as meant: cut off by the end, or with comments in the character data |
| `Decimal`, `Messages`, `Wire`, `Acceptance`, `MessageRoundTrip` | the four dice messages, their text, which documents are accepted, and their way through the serializer |
| `Engine`, `Exchange` | rolling, counting successes, and a request with its answer from end to end |
| `Macs`, `Negotiation`, `Agreement`, `LockStep`, `Reachability` | one negotiating peer, agreement of all peers over an unreliable network, convergence in lock step, and when agreement can be reached at all |
| `Tasks`, `TaskProgress` | coroutine tasks that await each other, with cancellation and explicit frame lifetimes; what they do until they are cancelled |
| `PoolBuilder`, `Pool`, `PoolConcurrent` | the block pool: its levels, its operations on one thread, and its scans interleaved with objects that die on other threads |
| `Commands` | ids, callbacks and shutdown of the command manager |
| `Sender` | sending to one peer with retries, a queue and several sends at once |
| `Worker` | the timed worker with its bounded queue and its shutdown |

Code that changes things step by step is a method or a class with loops, proved against a function of its
input or of the old state. Protocols and concurrent parts are state machines: a run is a list of states and
steps, and the main results hold for every run.

## How the main proofs go

- **Round trip.** A document is a sequence of pieces: tags, texts, comments, white space. `MarksOfPieces`
  shows that the passes over the token list find exactly these pieces, whatever the comments contain;
  `RunOfPieces` turns the run over tokens into a run over pieces, where layout is skipped; the run over the
  pieces of a printed tree rebuilds the tree. The attribute order is a parameter everywhere.
- **Agreement.** Every round ever sent was the starting round of some member and is not below the start of
  its sender. A member that finds all offers equal has therefore seen a round at least as large as everybody's
  start that is somebody's start: the largest one. The nominee depends only on the round and the member set.
  A member whose counter wrapped to zero may decide without having heard anybody if the group has an empty
  address, but then it has sent no offer, and nobody who stands higher can decide: agreement needs no premise.
- **Reaching agreement.** A lock-step round is a stretch of a run. If the offer for the largest round survives,
  letting its members speak first and the others once they have heard them leads everybody to a decision; if it
  does not, no member that started with that round ever finds all offers equal.
- **Cancellation.** The live frames form a chain. The frames above the running one either are inside `Run` or
  wait; the position and these two stretches determine all handles, so each step of the machinery is a small
  change to one end of the chain. Reading, resuming or freeing a frame that is gone is a step to `Crash`.
- **Exactly once.** Times resumed plus waiting is one for every awaited request, in every state.

## Where the code does not do what one might expect

- A comment inside character data splits it: white space that stands alone beside a comment is lost, and the text
  before the comment is decoded twice if text follows. The content survives exactly when no part is blank without
  being empty and no entity reference begins in the text in front of another part (`XmlMixed.CommentsInContent`,
  `XmlMixed.CommentInContent`); `XmlMixed.CommentLosesBlank` and `XmlMixed.CommentChangesContent` are documents on
  which it does not.
- Content of white space only is lost in printing and parsing (`XmlDocuments.RoundTrip` says exactly when).
- Macs are escaped on output but not decoded on input, because messages are parsed with entity replacement
  off; offers are read with `stoi`, so those from round 2^31 on are thrown away (`MessageRoundTrip` says which
  messages arrive unchanged).
- A reference that is cut off by the end of the content is replaced all the same (`Substitution.CutOffReference`);
  only complete references are replaced exactly when the content does not end in one cut off behind its third
  character (`Substitution.StrictWithoutCut`).
- Peers can come to an agreement exactly when the offer for their largest starting round survives the serializer:
  the round is below 2^31 and the address of its nominee has nothing to escape and is not blank
  (`Reachability.AgreementPossible`, `LockStep.EverybodyDecides`). Members with an empty address may choose round
  zero instead of the largest (`Agreement.LargestWinsExactly`).
- A response submitted for an id from inside the callback of that id resumes its coroutine a second time
  (`Commands.OnceUnlessInside`).
- `Resize` casts to `int`; from 2^31 on the number of blocks is wrong (`Pool.ResizedCount` says exactly when).
- A task dropped before `Run` is never destroyed (`DroppedTaskStays`).

## Model

| member | source | states |
|---|---|---|
| `Entities.InsertEntityRef` | lib/core/src/dice/xmlparser.hpp:377-394 | the in-place loop with its jump of three characters computes the replacement of each special character by its reference, once |
| `Entities.SubstituteEntityRef` | lib/core/src/dice/xmlparser.hpp:355-375 | the in-place loop computes the left-to-right decoding in which a reference cut off by the end of the text also counts |
| `Entities.SymbolRow` | lib/core/src/dice/xmlparser.hpp:382-391 | the table scan finds a line exactly for the five special characters, and its first column is their reference |
| `Entities.ScanRows` | lib/core/src/dice/xmlparser.hpp:365-373 | the scan finds the first line of the table one of whose three spellings matches |
| `Entities.DecodeEscape` | lib/core/src/dice/xmlparser.hpp:355-394 | substitution after escaping gives back every text, nothing decoded twice |
| `Entities.EscapeShape` | lib/core/src/dice/xmlparser.hpp:377-394 | escaped text has no `<` or `>`, and is blank or empty just when the original is |
| `Entities.EscapeIdentity` | lib/core/src/dice/xmlparser.hpp:377-394 | escaping changes nothing if and only if there is no special character |
| `References.NamesOfTable` | lib/core/src/dice/xmlparser.hpp:80-96 | the five characters are written and read under their predefined names |
| `References.CodesOfTable` | lib/core/src/dice/xmlparser.hpp:80-96 | the two numeric spellings of the table are the code of the character in decimal and hexadecimal digits |
| `References.SpellingDecoded` | lib/core/src/dice/xmlparser.hpp:328-375 | any of the fifteen spellings, whatever follows, is read as its character, and reading goes on behind it |
| `References.AmbiguousReferences` | lib/core/src/dice/xmlparser.hpp:328-375 | a numeric reference cut off where it could be one of several is read as the first of them in the table |
| `XmlTags.ExtractAttributes` | lib/core/src/dice/xmlparser.hpp:302-326 | the loop reads the attribute map of a tag, the first of equal keys winning; no result where the source leaves the token |
| `XmlScan.TokenList.Tokenize` | lib/core/src/dice/xmlparser.hpp:157-176 | the list holds the start, every position at `<` or behind `>`, and the end |
| `XmlScan.TokenList.RemoveGaps` | lib/core/src/dice/xmlparser.hpp:178-194 | the in-place pass drops the start of every token of white space, the token before it growing over it |
| `XmlScan.NoGapsLeft` | lib/core/src/dice/xmlparser.hpp:178-194 | after the pass no token consists of white space, and the positions still ascend |
| `XmlScan.RawMarksAscend` | lib/core/src/dice/xmlparser.hpp:157-176 | the positions ascend strictly |
| `XmlScan.TokenList.ScanOne` | lib/core/src/dice/xmlparser.hpp:220-229 | the scan of one token tells a comment that ends in it from one that only begins in it |
| `XmlScan.TokenList.RemoveInsideComments` | lib/core/src/dice/xmlparser.hpp:208-244 | the in-place pass makes every comment one token, and changes nothing for a comment that never ends |
| `XmlScan.TokenList.RemoveLeadingComments` | lib/core/src/dice/xmlparser.hpp:280-292 | comment tokens in front are dropped; failure where the source walks off the list |
| `XmlTree.WriteAttributes` | lib/core/src/dice/xmlparser.hpp:428-431 | attributes are written in some order that lists the map exactly once |
| `XmlTree.WriteElement` | lib/core/src/dice/xmlparser.hpp:424-442 | the output operator writes the text of the tree for some attribute order |
| `XmlTree.WriteChildren` | lib/core/src/dice/xmlparser.hpp:437-439 | children are written one after another in their order |
| `XmlTree.BuildElementTree` | lib/core/src/dice/xmlparser.hpp:444-498 | the loop over tokens computes what the stack machine makes of them, ignoring what follows the root |
| `XmlTree.ParseDocument` | lib/core/src/dice/xmlparser.hpp:692-723 | the constructor of a document: passes, the three declared values, root, and its two exceptions |
| `XmlPieces.SpaceStep` | lib/core/src/dice/xmlparser.hpp:178-194 | white space between tags leaves no position in the token list |
| `XmlPieces.NoteStep` | lib/core/src/dice/xmlparser.hpp:208-244 | a comment leaves exactly one position, whatever markup it contains |
| `XmlPieces.MarksOfPieces` | lib/core/src/dice/xmlparser.hpp:157-244 | the first three passes find exactly the tags, texts and comments a document was put together from |
| `XmlReading.ReadTag` | lib/core/src/dice/xmlparser.hpp:294-326 | name and attributes of a tag are read back, with any white space between and behind the attributes and either kind of quotes |
| `XmlReading.ReadKind` | lib/core/src/dice/xmlparser.hpp:255-278 | each kind of token is recognised for what it was printed as |
| `XmlReading.RunOfPieces` | lib/core/src/dice/xmlparser.hpp:464-496 | running over the tokens of a document does to the stack what its pieces stand for |
| `XmlReading.LayoutIsNothing` | lib/core/src/dice/xmlparser.hpp:464-496 | white space between tags and inside of them, comments, the kind of quotes and the names of closing tags do not reach the tree |
| `XmlRoundTrip.ParseOfPieces` | lib/core/src/dice/xmlparser.hpp:692-723 | any text of valid pieces whose first tag is the root parses to what the stack machine makes of its tags and texts |
| `XmlRoundTrip.ParseLaidOut` | lib/core/src/dice/xmlparser.hpp:157-292 | layout does not matter: white space between and inside tags, either quotes, closing names and comments, in front of the root too, leave the parsed tree unchanged |
| `XmlOutcomes.IgnoredBehindRoot` | lib/core/src/dice/xmlparser.hpp:444-498 | whatever stands behind the end of the root is ignored |
| `XmlOutcomes.ClosingMayBeMissing` | lib/core/src/dice/xmlparser.hpp:444-498 | closing tags may be missing at the end: closing one more open tag changes nothing |
| `XmlOutcomes.TornIsMalformed` | lib/core/src/dice/xmlparser.hpp:255-278 | a tag that is never closed makes the document malformed, whatever follows |
| `XmlOutcomes.TextIsNoBeginning` | lib/core/src/dice/xmlparser.hpp:692-703 | a document whose first token is character data is refused for its beginning |
| `XmlOutcomes.NothingToParse` | lib/core/src/dice/xmlparser.hpp:280-292 | with white space and comments alone the source leaves its token list |
| `XmlOutcomes.KeyWithoutValue` | lib/core/src/dice/xmlparser.hpp:302-326 | a key without a value makes the search for the value leave the token |
| `XmlOutcomes.NothingCollapses` | lib/core/src/dice/xmlparser.hpp:208-244 | where no comment ends the pass over comments changes nothing |
| `XmlOutcomes.FirstKeyWins` | lib/core/src/dice/xmlparser.hpp:302-326 | of equal keys the first one counts |
| `XmlRoundTrip.ParsePrinted` | lib/core/src/dice/xmlparser.hpp:424-498 | parsing a printed tree gives the tree back, of any shape and depth and for every attribute order, with entity replacement on or off |
| `XmlDocuments.ParseAnyOrder` | lib/core/src/dice/xmlparser.hpp:424-498 | any text a tree may be printed as comes back as the tree, but for blank content and, without replacement, escaped content |
| `XmlDocuments.RoundTrip` | lib/core/src/dice/xmlparser.hpp:424-498 | parsing a printed tree with entity replacement gives back names, attribute maps, contents and child order, for every attribute order, if and only if no element has non-empty blank content |
| `XmlDocuments.OrderDoesNotMatter` | lib/core/src/dice/xmlparser.hpp:424-442 | texts printed with different attribute orders parse alike |
| `XmlDeclarations.WriteDocument` | lib/core/src/dice/xmlparser.hpp:748-768 | `ToString`: a declaration with the values that are not empty, if there are any, and the tree in some attribute order |
| `XmlDeclarations.DeclarationWritten` | lib/core/src/dice/xmlparser.hpp:748-768 | the declaration character by character |
| `XmlDeclarations.LooselyDeclared` | lib/core/src/dice/xmlparser.hpp:692-723 | a declaration, however it is spelled, leaves the parsed tree alone, and what it declares is read back |
| `XmlDeclarations.DeclaredDocument` | lib/core/src/dice/xmlparser.hpp:692-723 | a declaration in front of any document leaves the parsed tree alone, and its values are read back |
| `XmlDeclarations.DocumentRoundTrip` | lib/core/src/dice/xmlparser.hpp:692-768 | printing and parsing a whole document gives back its declared values, and its tree if and only if no element has non-empty blank content |
| `Substitution.StrictWithoutCut` | lib/core/src/dice/xmlparser.hpp:328-375 | substitution is the one that asks for complete references if and only if no suffix of the text is a reference cut off behind its third character |
| `Substitution.CutOffReference` | lib/core/src/dice/xmlparser.hpp:328-375 | `&quo` at the end of a text is replaced |
| `Substitution.DecodedTwice` | lib/core/src/dice/xmlparser.hpp:355-394 | escaped text decoded, appended to and decoded again is the joined text if and only if no reference begins in the first part |
| `Substitution.GatheredExactly` | lib/core/src/dice/xmlparser.hpp:485-491 | the same for any number of parts appended one by one |
| `Substitution.VisibleExactly` | lib/core/src/dice/xmlparser.hpp:178-194 | parts of which the blank ones are lost give the joined text if and only if none is blank without being empty and no reference begins in front of the others |
| `XmlMixed.MixedContent` | lib/core/src/dice/xmlparser.hpp:444-498 | a document with comments and loose text anywhere parses to what appending and decoding its runs of loose text in order gives, blank runs dropped |
| `XmlMixed.CommentsInContent` | lib/core/src/dice/xmlparser.hpp:178-194 | comments anywhere, inside character data too, leave the tree unchanged if and only if no run of text they leave is blank, unless empty, and in no element a reference begins in the text in front of another run |
| `XmlMixed.CommentInContent` | lib/core/src/dice/xmlparser.hpp:485-491 | one comment between any two texts: the content survives if and only if neither is blank without being empty and, if there is a second one, no reference begins in the first |
| `XmlMixed.CommentLosesBlank` | lib/core/src/dice/xmlparser.hpp:178-194 | a blank in front of a comment is lost, though no reference begins anywhere |
| `XmlMixed.CommentChangesContent` | lib/core/src/dice/xmlparser.hpp:485-491 | a comment between `&amp;` and `lt;` turns the content `&lt;` into `<` |
| `Decimal.StoulOfToString` | lib/core/src/dice/serializer.cpp:142-160 | `stoul` reads back `to_string` exactly below 2^64 |
| `Decimal.StoiOfToString` | lib/core/src/dice/serializer.cpp:180-181 | `stoi` reads back `to_string` exactly below 2^31 and throws from there on |
| `Decimal.NumbersConverted` | lib/core/src/dice/serializer.cpp:142-181 | `stoul` and `stoi` of white space, a sign, digits and anything else: the value, out of range, or no number; a minus sign wraps an unsigned number around |
| `Messages.Serialize` | lib/core/src/dice/serializer.cpp:88-121 | the text is the printed document of the message for some attribute order |
| `Wire.HelloText` | lib/core/src/dice/serializer.cpp:108-113 | the text of a greeting, character by character |
| `Wire.OfferText` | lib/core/src/dice/serializer.cpp:115-121 | the text of an offer, character by character |
| `Wire.RequestText` | lib/core/src/dice/serializer.cpp:88-96 | the text of a request: kind, number and threshold as attributes in some order, and nothing of the values of its dice |
| `Wire.ResponseText` | lib/core/src/dice/serializer.cpp:98-106 | the text of a response: attributes in some order and one `Val` for each die |
| `Messages.ResponseDocument` | lib/core/src/dice/serializer.cpp:43-52 | the loop adds one `Val` child for each die |
| `Messages.ReadValues` | lib/core/src/dice/serializer.cpp:158-162 | the loop reads the first `size` children and stops at the first that is missing or malformed |
| `Messages.DeserializeText` | lib/core/src/dice/serializer.cpp:123-182 | the message a text denotes, or the error the source throws, in its order of checks |
| `Acceptance.RequestAccepted` | lib/core/src/dice/serializer.cpp:139-150 | a document is a request if and only if it has a kind of dice, a number of them and a threshold that is missing or a number; what is made of it |
| `Acceptance.ResponseAccepted` | lib/core/src/dice/serializer.cpp:152-171 | a document is a response if and only if besides it has as many children with numbers as it announces; what is made of it |
| `Acceptance.HelloAccepted` | lib/core/src/dice/serializer.cpp:173-176 | a greeting needs a child `Mac`, of which the first one counts |
| `Acceptance.OfferAccepted` | lib/core/src/dice/serializer.cpp:178-182 | an offer needs a child `Mac` and a round read as a signed number |
| `Acceptance.FaultReported` | lib/core/src/dice/serializer.cpp:123-182 | of several faults the first in the order of checks is reported |
| `Acceptance.EndsAtNul` | lib/core/src/dice/serializer.cpp:123-137 | a message ends at its first NUL |
| `MessageRoundTrip.DeserializeSerialized` | lib/core/src/dice/serializer.cpp:88-182 | what arrives of every message: macs escaped, blank macs lost, dice of requests zeroed, offers from round 2^31 on rejected |
| `MessageRoundTrip.PlainMacArrives` | lib/core/src/dice/serializer.cpp:173-182 | a mac arrives unchanged if and only if it has nothing to escape and is not blank |
| `MessageRoundTrip.MessageRoundTrip` | lib/core/src/dice/serializer.cpp:88-182 | `Deserialize` of `Serialize` is the same message if and only if macs are plain, offer rounds are below 2^31 and dice of requests are zero |
| `Engine.GenerateResult` | lib/core/src/dice/engine.cpp:17-26 | a roll keeps kind and number of dice and holds the values drawn, in order |
| `Engine.EveryRollComes` | lib/core/src/dice/engine.cpp:17-26 | the rolls are exactly the sorted draws in range |
| `Engine.SidesOfName` | lib/core/src/dice/engine.cpp:17-26 | a die has as many sides as its name on the air says |
| `Engine.SortedIsSorted` | lib/core/src/dice/engine.cpp:24 | sorting gives an ordered permutation |
| `Engine.CountSuccesses` | lib/core/src/dice/engine.cpp:37-46 | the loop counts the dice at or above the threshold |
| `Engine.SuccessesBetween` | lib/core/src/dice/engine.cpp:37-46 | every die reaches the smallest value and none more than the largest; between two thresholds lie the dice from the lower to below the higher one |
| `Exchange.GenerateResponse` | lib/core/src/fsm/stateplaying.cpp:43-50 | the response holds a roll of the requested dice and a success count exactly if there was a threshold |
| `Exchange.MatchesExactly` | lib/core/src/fsm/stateplaying.cpp:23-41 | a response matches a pending request if and only if the generator may have given it for that request, as far as roll and count are right at all; nothing matches without one |
| `Exchange.OthersDoNotMatch` | lib/core/src/fsm/stateplaying.cpp:23-41 | an answer to a request for other dice, or with a threshold where there was none, does not match |
| `Exchange.RequestArrives` | lib/core/src/fsm/stateplaying.cpp:240-253 | the generator reads kind, number and threshold of every request |
| `Exchange.AnswerArrives` | lib/core/src/fsm/stateplaying.cpp:23-50 | the answer to a request, sent there and back through the serializer, matches it and counts the values at or above its threshold |
| `Macs.SortedKeysAscend` | lib/core/src/fsm/statenegotiating.cpp:92-97 | the members listed in map order: ascending, each once |
| `Macs.LessIs` | lib/core/src/fsm/statenegotiating.cpp:92-97 | the order is that of the first difference |
| `Macs.AscendingIsSorted` | lib/core/src/fsm/statenegotiating.cpp:92-97 | the listing depends on the set of members only |
| `Macs.Nth` | lib/core/src/fsm/statenegotiating.cpp:95 | stepping from the beginning of the map reaches the member of that rank |
| `Negotiation.StateNegotiating.constructor` | lib/core/src/fsm/statenegotiating.cpp:22-38 | empty offers for the peers, and the own offer at the next round with its nominee |
| `Negotiation.StateNegotiating.GetLocalOfferMac` | lib/core/src/fsm/statenegotiating.cpp:92-97 | the nominee is the member that exactly round modulo size members come before |
| `Negotiation.NomineeRank` | lib/core/src/fsm/statenegotiating.cpp:92-97 | so it is for every membership and round |
| `Negotiation.StateNegotiating.OnMessageReceived` | lib/core/src/fsm/statenegotiating.cpp:62-75 | an offer of a peer replaces the one known; other and malformed messages and strangers are ignored |
| `Negotiation.StateNegotiating.OnSocketReadFailure` | lib/core/src/fsm/statenegotiating.cpp:83-90 | a peer that fails is forgotten with its offer; strangers change nothing |
| `Negotiation.StateNegotiating.OnSendFailure` | lib/core/src/fsm/statenegotiating.cpp:168-176 | a peer that cannot be reached is forgotten with its offer |
| `Negotiation.StateNegotiating.HighestRound` | lib/core/src/fsm/statenegotiating.cpp:141-145 | the loop finds the highest round among all offers and the global one |
| `Negotiation.StateNegotiating.CheckAndUpdate` | lib/core/src/fsm/statenegotiating.cpp:119-151 | a decision exactly if all offers are equal; otherwise the highest round is adopted and the member nominated by it |
| `Negotiation.StateNegotiating.HandleAll` | lib/core/src/fsm/statenegotiating.cpp:62-179 | the object handling events in their order does what the sequence of events stands for |
| `Negotiation.HearIsReceive` | lib/core/src/fsm/statenegotiating.cpp:62-75 | hearing a serialized offer, in whatever attribute order, is receiving the offer |
| `Negotiation.EventsKeep` | lib/core/src/fsm/statenegotiating.cpp:62-179 | no sequence of messages of any kind, read failures, send failures and turns breaks the consistency of a node or lowers its round |
| `Negotiation.BeforeDecision` | lib/core/src/fsm/statenegotiating.cpp:22-179 | from the start to the decision the offer keys are the peer macs and the own one, the own offer stands at the global round, and that is never lowered |
| `Agreement.StepKeeps` | lib/core/src/fsm/statenegotiating.cpp:62-160 | every step of every member keeps: rounds sent were started with by someone and are not below the start of the sender |
| `Agreement.RunKeeps` | lib/core/src/fsm/statenegotiating.cpp:62-160 | the invariant holds in every state of every run |
| `Agreement.AnythingMayHappen` | lib/core/src/fsm/statenegotiating.cpp:62-160 | no order of events is ruled out: members begin and check at any time, and any offer sent may arrive again and again |
| `Agreement.DecidedRound` | lib/core/src/fsm/statenegotiating.cpp:116-160 | whoever plays has chosen the member that exactly round modulo size members come before, and the round is the largest starting round, or zero where some member has an empty address |
| `Agreement.MembersAgree` | lib/core/src/fsm/statenegotiating.cpp:92-160 | in every run from any starting rounds and addresses, with offers lost, duplicated or reordered, all members that play have chosen the same round and generator |
| `Agreement.GeneratorIsMember` | lib/core/src/fsm/statenegotiating.cpp:92-160 | the generator chosen is one of the members |
| `Agreement.LargestWinsExactly` | lib/core/src/fsm/statenegotiating.cpp:116-160 | the round chosen is the largest starting round in every run if and only if no own offer looks like the empty one, or all start alike |
| `Agreement.DecidesUnheard` | lib/core/src/fsm/statenegotiating.cpp:22-38 | a fresh node takes the empty offers of its peers for agreement if and only if its counter wrapped to zero and its nominee has an empty address |
| `LockStep.DeliverAll` | lib/core/src/fsm/statenegotiating.cpp:62-75 | serialized offers handled in whatever order leave the same state |
| `LockStep.KnowerDecides` | lib/core/src/fsm/statenegotiating.cpp:119-135 | a member that has heard all that can be read finds all offers equal exactly if the others stand at its round and the offer for it survives the serializer, or theirs are not read and its own looks like the empty one |
| `LockStep.FirstRound` | lib/core/src/fsm/statenegotiating.cpp:36-40 | nobody decides at the first check if and only if no own offer looks like the empty one; then the round spreads all starting rounds that can be read |
| `LockStep.NextRound` | lib/core/src/fsm/statenegotiating.cpp:116-160 | members that know what can be known decide if all stand at one round whose offer survives the serializer; otherwise none does and each goes on at the highest round it knows |
| `LockStep.NeverDecides` | lib/core/src/fsm/statenegotiating.cpp:62-75 | while the offer for the largest round does not survive the serializer nobody decides in any number of rounds |
| `LockStep.Converges` | lib/core/src/fsm/statenegotiating.cpp:36-40 | if the offer for the largest starting round survives the serializer nobody decides at the first check, all at the second exactly if all started alike, and else all at the third; if not, nobody ever decides |
| `LockStep.EverybodyDecides` | lib/core/src/fsm/statenegotiating.cpp:116-160 | for any starting rounds and addresses: everybody has decided at the third check if and only if the offer for the largest round survives the serializer and no own offer looks like the empty one, or all start at zero; otherwise some member negotiates after any number of rounds |
| `Reachability.LockStepIsRun` | lib/core/src/fsm/statenegotiating.cpp:62-160 | whatever happens at a check in lock step happens in a run over the network that agreement is about |
| `Reachability.RoundIsReached` | lib/core/src/fsm/statenegotiating.cpp:62-160 | a lock-step round is made of checks and deliveries of offers sent |
| `Reachability.PlayedSurvives` | lib/core/src/fsm/statenegotiating.cpp:119-135 | in every run the offer for a round decided on survives the serializer |
| `Reachability.AgreementPossible` | lib/core/src/fsm/statenegotiating.cpp:62-160 | for any starting rounds and addresses some run ends with everybody playing if and only if the offer for the largest starting round survives the serializer |
| `Reachability.DecisionPossible` | lib/core/src/fsm/statenegotiating.cpp:62-160 | some run ends with a decision if and only if that offer survives, or an own offer looks like the empty one; otherwise nobody decides whatever the network does |
| `Tasks.ConservedStep` | lib/utils/src/include/utils/task.hpp:156-307 | no step loses a frame or frees one twice |
| `Tasks.StepKeeps` | lib/utils/src/include/utils/task.hpp:156-307 | every step keeps the live frames a chain from the root and touches no freed frame |
| `Tasks.RunIsSafe` | lib/utils/src/include/utils/task.hpp:156-307 | in every run no frame is freed twice, resumed while running or after its end, and the shared flag is read only while the root frame lives |
| `Tasks.NoBodyAfterDrop` | lib/utils/src/include/utils/task.hpp:160-271 | once the owner's handle is dropped no body in the chain runs past a suspension point, in any continuation of the run |
| `TaskProgress.ChecksDecide` | lib/utils/src/include/utils/task.hpp:175-222 | where a task starts and wherever an await ends the body is entered if and only if the owner still has the handle, and unwound otherwise |
| `TaskProgress.EnteredByCheck` | lib/utils/src/include/utils/task.hpp:175-222 | there is no other way into a body: every await leaves it and comes back through a check |
| `TaskProgress.RunEnters` | lib/utils/src/include/utils/task.hpp:140-222 | running a task enters its body, and so does the way back from an await of something that is ready |
| `TaskProgress.AwaitEnters` | lib/utils/src/include/utils/task.hpp:190-202 | awaiting a task enters the body of the new one |
| `TaskProgress.AwaitReturns` | lib/utils/src/include/utils/task.hpp:224-307 | the end of an awaited task hands control to the body that awaits it, and destroys the frame |
| `TaskProgress.AwaitParks` | lib/utils/src/include/utils/task.hpp:289-307 | while a body waits for something outside all its callers suspend, up to the root, and none is entered |
| `TaskProgress.FireEnters` | lib/utils/src/include/utils/task.hpp:175-188 | the resumption from outside enters just the body that awaited it |
| `TaskProgress.RootEnds` | lib/utils/src/include/utils/task.hpp:224-271 | a root task that ends stays, done, with the handle of the owner, and goes with it |
| `TaskProgress.NeverStuck` | lib/utils/src/include/utils/task.hpp:156-307 | something can always happen until the owner has dropped the handle and no resumption is pending |
| `Tasks.AdvanceDescends` | lib/utils/src/include/utils/task.hpp:222-307 | with the owner gone every step of the machinery moves down the chain |
| `Tasks.Settles` | lib/utils/src/include/utils/task.hpp:222-307 | from any point the machinery brings a dropped task back to the event loop, destroyed or with a resumption pending |
| `Tasks.DroppedTaskEnds` | lib/utils/src/include/utils/task.hpp:156-307 | once the pending resumption of a dropped task arrives, every frame ever created is destroyed exactly once, for any depth |
| `Tasks.DroppedTaskStays` | lib/utils/src/include/utils/task.hpp:259-307 | a dropped task without a pending resumption survives if and only if it was never run, and then forever |
| `PoolBuilder.Filtered` | lib/utils/src/include/utils/poolbuilder.hpp:50-70 | duplicates go, every value stays |
| `PoolBuilder.Inserted` | lib/utils/src/include/utils/poolbuilder.hpp:75-93 | ordered insertion keeps the order |
| `PoolBuilder.InsertedElements` | lib/utils/src/include/utils/poolbuilder.hpp:75-93 | ordered insertion adds just the value |
| `PoolBuilder.SortedIsPermutation` | lib/utils/src/include/utils/poolbuilder.hpp:98-112 | the sort gives an ordered permutation |
| `PoolBuilder.LevelsAreTheSizes` | lib/utils/src/include/utils/poolbuilder.hpp:131-140 | the levels of a pool are strictly ascending and just the sizes listed |
| `PoolBuilder.LevelsDependOnSet` | lib/utils/src/include/utils/poolbuilder.hpp:131-140 | lists of types with the same sizes give the same pool |
| `PoolBuilder.OwnSize` | lib/utils/src/include/utils/mempool.hpp:37-52 | every listed type is placed in blocks of exactly its size |
| `PoolBuilder.SmallestThatFits` | lib/utils/src/include/utils/mempool.hpp:37-52 | any other type gets the smallest blocks that hold it |
| `Pool.Level.constructor` | lib/utils/src/include/utils/mempool.hpp:74-79 | as many free blocks as asked for |
| `Pool.Level.TestAndSet` | lib/utils/src/include/utils/mempool.hpp:145 | the flag is set and its old value returned |
| `Pool.Level.Allocate` | lib/utils/src/include/utils/mempool.hpp:135-162 | the first free block, or a new one, is taken and moves to the end; a constructor that throws leaves it free |
| `Pool.Level.Deallocate` | lib/utils/src/include/utils/mempool.hpp:163-173 | the flag of the block is cleared, nothing else changes |
| `Pool.Level.RemoveFree` | lib/utils/src/include/utils/mempool.hpp:121-128 | the removal scan takes out free blocks from the front, up to the surplus |
| `Pool.Level.Resize` | lib/utils/src/include/utils/mempool.hpp:111-129 | free blocks are added in front or removed |
| `Pool.Pool.constructor` | lib/utils/src/include/utils/mempool.hpp:74-79 | every level starts with the same number of free blocks |
| `Pool.Pool.Make` | lib/utils/src/include/utils/mempool.hpp:81-101 | the object goes to the level found at compile time, the other levels stay as they are |
| `Pool.Pool.ShrinkToFit` | lib/utils/src/include/utils/mempool.hpp:103-109 | at every level exactly the blocks that hold objects remain, in their order |
| `Pool.Pool.Resize` | lib/utils/src/include/utils/mempool.hpp:111-129 | every level is resized |
| `Pool.HandsOut` | lib/utils/src/include/utils/mempool.hpp:135-162 | the block handed out held no object and is the first free one, or new if there is none; the others keep their order and the blocks with objects are those before and it |
| `Pool.DeallocateUndoes` | lib/utils/src/include/utils/mempool.hpp:135-173 | deallocation, or a constructor that throws, undoes allocation for the blocks with objects |
| `Pool.ResizedKeeps` | lib/utils/src/include/utils/mempool.hpp:111-129 | resizing loses no block with an object |
| `Pool.TrimmedFromFront` | lib/utils/src/include/utils/mempool.hpp:121-128 | the free blocks that go are the first ones |
| `Pool.ResizedCount` | lib/utils/src/include/utils/mempool.hpp:111-129 | resizing to n leaves max(n, blocks with objects) if and only if the casts of n and of the list size to `int` wrap alike, or only blocks with objects are wanted and left; for lists below 2^31 if and only if n is below 2^31 |
| `PoolConcurrent.StepKeeps` | lib/utils/src/include/utils/mempool.hpp:103-173 | no step of the owning thread or of a dying object breaks: different objects, different blocks, all listed and marked |
| `PoolConcurrent.RunKeeps` | lib/utils/src/include/utils/mempool.hpp:103-173 | this holds in every state of every interleaving |
| `PoolConcurrent.LiveBlocksStay` | lib/utils/src/include/utils/mempool.hpp:103-173 | in every interleaving distinct objects have distinct blocks, none removed from the list |
| `PoolConcurrent.HandedOutIsFree` | lib/utils/src/include/utils/mempool.hpp:135-162 | in every interleaving a block is handed out only while no object, not even a dying one, has it |
| `PoolConcurrent.BlockIsKept` | lib/utils/src/include/utils/mempool.hpp:135-173 | an object keeps its block until its flag is cleared |
| `PoolConcurrent.MarkedIsHeld` | lib/utils/src/include/utils/mempool.hpp:135-173 | between allocations the marked blocks are just those of objects, so none leaks |
| `PoolConcurrent.NobodyWaits` | lib/utils/src/include/utils/mempool.hpp:103-173 | objects die at any time and the owning thread never waits |
| `PoolConcurrent.AllocateAlone` | lib/utils/src/include/utils/mempool.hpp:135-162 | without interference the steps of the allocation scan do what `Allocate` does |
| `PoolConcurrent.RemoveAlone` | lib/utils/src/include/utils/mempool.hpp:103-129 | without interference the steps of the removal scan do what `ShrinkToFit` and `Resize` do |
| `PoolConcurrent.MakeAlone` | lib/utils/src/include/utils/mempool.hpp:135-162 | without interference an allocation, from its beginning to the end of the construction, is `Allocate` |
| `PoolConcurrent.ShrinkAlone` | lib/utils/src/include/utils/mempool.hpp:103-109 | without interference shrinking leaves just the blocks with objects |
| `PoolConcurrent.ResizeAlone` | lib/utils/src/include/utils/mempool.hpp:111-129 | without interference resizing is `Resize` |
| `Commands.RefusedWhenFull` | lib/core/src/sign/commandmanager.cpp:72-79 | a request is refused without asking the invoker if and only if all 256 ids of its kind are pending |
| `Commands.Manager.IssueCommand` | lib/core/src/sign/commandmanager.cpp:69-88 | the probing loop ends with the lowest free id from the kind on, pending from now; a refusal, if all 256 ids are pending or the invoker refuses, answers at once |
| `Commands.Manager.Callback` | lib/core/src/sign/commandmanager.cpp:30-38 | the coroutine is resumed with what `await_resume` finds and issues requests and submits responses, callbacks nested to any depth |
| `Commands.Manager.SubmitResponse` | lib/core/src/sign/commandmanager.cpp:90-101 | the entry gets the response, its callback runs, whatever it issues and submits, and only then is it erased; an unknown id changes nothing |
| `Commands.Manager.Destroy` | lib/core/src/sign/commandmanager.cpp:49-57 | the destructor is a sequence of steps of the state machine, with nothing submitted but what its callbacks submit; it ends with nothing pending, every awaited request answered once, with the failure or a response from a callback |
| `Commands.SubmittedLeads` | lib/core/src/sign/commandmanager.cpp:90-101 | a submission with whatever its callbacks do, nested to any depth, is a sequence of steps of the state machine |
| `Commands.LeadsExplains` | lib/core/src/sign/commandmanager.cpp:26-101 | along any steps every new value is the failure or a response submitted in one of them |
| `Commands.AnythingMayHappen` | lib/core/src/sign/commandmanager.cpp:49-101 | requests and responses come at any time, from running callbacks during the destruction too |
| `Commands.StepKeeps` | lib/core/src/sign/commandmanager.cpp:26-101 | every step keeps: entries belong to requests of their kind, running callbacks keep theirs, every awaited request is answered once or waits |
| `Commands.RunKeeps` | lib/core/src/sign/commandmanager.cpp:26-101 | the invariant holds in every run, with callbacks nested |
| `Commands.ResumedOnce` | lib/core/src/sign/commandmanager.cpp:26-101 | every awaiting coroutine is resumed at most once, and exactly once when nothing is pending |
| `Commands.OwnResponse` | lib/core/src/sign/commandmanager.cpp:26-101 | every value seen is the response submitted for the own id while it was pending, or the failure of a refused request or of the destruction |
| `Commands.NotReused` | lib/core/src/sign/commandmanager.cpp:69-101 | while the callback of an id runs no request gets that id |
| `Commands.EntryStays` | lib/core/src/sign/commandmanager.cpp:90-101 | the entry of an id stays its own until its callback has returned |
| `Commands.KindOfPending` | lib/core/src/sign/commandmanager.cpp:69-88 | the id of a pending command determines its kind |
| `Commands.OnceUnlessInside` | lib/core/src/sign/commandmanager.cpp:90-101 | after any submission every coroutine is still resumed at most once if and only if the id was not submitted from inside its own callback |
| `Commands.SubmitInsideCallback` | lib/core/src/sign/commandmanager.cpp:90-101 | submitting an id again from inside its own callback resumes its coroutine twice |
| `Commands.InsideIsReached` | lib/core/src/sign/commandmanager.cpp:69-101 | a run of two steps that ends inside such a callback |
| `Sender.RemotePeerManager.constructor` | lib/core/src/fsm/stateplaying.cpp:59-71 | a new peer is connected and has nothing queued |
| `Sender.RemotePeerManager.Send` | lib/core/src/fsm/stateplaying.cpp:130-167 | the loop does what the replies make of a send alone, with at most five commands for its message and for each queued one |
| `Sender.RemotePeerManager.SendRequestToGenerator` | lib/core/src/fsm/stateplaying.cpp:119-128 | up to three sends, ending with the first answer; a new negotiation exactly if none has come |
| `Sender.ReplyKeeps` | lib/core/src/fsm/stateplaying.cpp:137-166 | no reply to any of the sends in flight loses or duplicates a message |
| `Sender.RunKeeps` | lib/core/src/fsm/stateplaying.cpp:130-167 | conservation holds in every run with any number of sends in flight |
| `Sender.AnythingMayHappen` | lib/core/src/fsm/stateplaying.cpp:130-167 | any reply may come to any of the sends in flight at any time |
| `Sender.CommandsFollow` | lib/core/src/fsm/stateplaying.cpp:137-166 | every message in flight has one command of its own under way, which carries it |
| `Sender.RenegotiatesOnBreak` | lib/core/src/fsm/stateplaying.cpp:112-117 | in every run a new negotiation is asked for as often as the connection to the generator is found broken, and never for another peer |
| `Sender.ConnectedUnlessBroken` | lib/core/src/fsm/stateplaying.cpp:105-117 | in every run the peer counts as connected if and only if every break was followed by a sign of life |
| `Sender.NothingIsLost` | lib/core/src/fsm/stateplaying.cpp:130-167 | accepted messages are delivered, in flight, queued or dropped, as often as accepted; each dropped one got five transient failures in a row |
| `Sender.DropsOnFifth` | lib/core/src/fsm/stateplaying.cpp:146-166 | a reply drops a message if and only if it is the fifth transient failure in a row |
| `Sender.Finishes` | lib/core/src/fsm/stateplaying.cpp:137-166 | a send alone terminates for every sequence of replies |
| `Sender.CommandBound` | lib/core/src/fsm/stateplaying.cpp:137-166 | it issues at most 5 * (1 + queue length) commands |
| `Sender.LastInFirstOut` | lib/core/src/fsm/stateplaying.cpp:150-158 | a peer that takes everything gets the message, then the queue, the last queued first |
| `Sender.UnreachableQueues` | lib/core/src/fsm/stateplaying.cpp:159-164 | a peer that cannot be reached costs one command and one place at the end of the queue |
| `Worker.Inserted` | lib/dispatch/src/common/worker.cpp:33-57 | insertion keeps the order by deadline, then by insertion, and adds just the task |
| `Worker.Queue.TrySchedule` | lib/dispatch/src/common/worker.cpp:46-57 | the task is queued exactly if there is room, with now plus delay as deadline |
| `Worker.Queue.GetNextTask` | lib/dispatch/src/common/worker.cpp:78-92 | the thread sleeps until the first deadline and takes the first task |
| `Worker.Queue.Run` | lib/dispatch/src/common/worker.cpp:59-76 | the loop runs every queued task up to the stop task, in order, each as soon as its deadline has come and the one before it is taken, and leaves the rest |
| `Worker.StepKeeps` | lib/dispatch/src/common/worker.cpp:15-92 | every step keeps the capacity, the order, the deadlines, and each task queued or taken once |
| `Worker.RunKeeps` | lib/dispatch/src/common/worker.cpp:15-92 | so does every run, with schedulers waiting for room |
| `Worker.NothingForgotten` | lib/dispatch/src/common/worker.cpp:33-57 | in every run each call still waits, was refused, or its task has been inserted, once, with the time of the call plus its delay as deadline |
| `Worker.RefusedWhenFull` | lib/dispatch/src/common/worker.cpp:46-57 | a call is refused if and only if it does not block and the queue is full |
| `Worker.TakenWasAsked` | lib/dispatch/src/common/worker.cpp:33-92 | every task taken was asked for in some call and is not taken before the delay given there is over |
| `Worker.NotBeforeItsTime` | lib/dispatch/src/common/worker.cpp:33-92 | a task that was asked for once does not run before its delay is over |
| `Worker.ServesFirst` | lib/dispatch/src/common/worker.cpp:59-92 | an idle thread takes the first task at its deadline, or at once if that is past, and stops after the stop task only |
| `Worker.NobodyIsShutOut` | lib/dispatch/src/common/worker.cpp:33-57 | callers come at any time, and only a blocking call waits, just while the queue is full |
| `Worker.TakenIsLeast` | lib/dispatch/src/common/worker.cpp:78-92 | the task taken is least by deadline, then insertion, among those queued, and due |
| `Worker.NothingAfterStop` | lib/dispatch/src/common/worker.cpp:59-76 | after the stop task nothing is taken |
| `Worker.ShutdownRuns` | lib/dispatch/src/common/worker.cpp:15-21 | every task inserted before the stop task was taken and ordered before it has run exactly once |

## Left out

- Wide character types, stream input, the copying and editing interface of documents: one character type in the C locale.
- An empty text is not a possible input of `XmlTree.ParseDocument`; the source reads behind it.
- The element tree is a value and the stack holds open elements that join their parent when they close; nodes on the heap and pointers into them are not modelled.
- Attribute and declaration values are not escaped by the source; the round trip asks for values without quotes and angle brackets, as the printer needs.
- The iteration order of hash tables is any order; `std::sort` is a function with the properties of a sort.
- `unsigned long` and `size_t` have 64 bits, `int` and `uint32_t` 32; a size that exhausts the memory is not modelled.
- Random numbers are parameters, any values in range; the quality of the distribution is not modelled.
- Agreement across dropped peers and offers from an earlier session: the code does not guarantee it. Liveness of the negotiation is shown in lock step, and elsewhere as the existence of a run.
- Negotiation of a single member, and addresses with a NUL in them.
- Tasks: frames are values in a map of memory, for one root task at a time, with the inline executor. A body that catches the cancellation exception, tasks held without being awaited, and detached coroutines are not modelled. That a handle asks a running frame whether it is done is taken as "no".
- Pool memory, alignment and memory orders: a block is an id and a flag, and every test-and-set and clear is one atomic step.
- Pool.ResizedCount: the difference of the two casts is unbounded; for some sizes from 2^31 on it leaves the range of `int` in the source, where that is undefined.
- PoolConcurrent: one level; several levels share nothing but the calls.
- Commands.Manager.Destroy: callbacks do finitely many things; with callbacks that issue requests forever the loop of the source does not end.
- Commands: a coroutine does not submit a response for an id from inside the callback of that id, where the source erases an entry twice; `Commands.OnceUnlessInside` shows what comes before that. The invoker answers at once whether it takes a command and does not call back into the manager. Ids do not overflow.
- Sender.RemotePeerManager.Send: has no other send in flight; sends that overlap are covered by the state machine (`Sender.RunKeeps`).
- Sender.RemotePeerManager.SendRequestToGenerator: has no other send in flight, and the answers to it are given in advance.
- Sender: what a new negotiation does to the manager of a peer, and its destruction with sends in flight.
- Worker.Queue.GetNextTask: nothing is scheduled while it sleeps; arrivals during the sleep are covered by the state machine (`Worker.RunKeeps`, `Worker.TakenIsLeast`).
- Worker.Queue.Run: the stop task is queued already and nothing more is scheduled; any schedule is covered by `Worker.RunKeeps` and `Worker.ShutdownRuns`.
- Worker: lost or spurious wake-ups of the condition variables, and exceptions of tasks, which the loop reports and survives. A worker that schedules into its own full queue waits forever in the source as well.
- The other states of the state machine, the timer, formatting of command arguments, logging and the Android side: calls into foreign code, or short code without an invariant of its own.
