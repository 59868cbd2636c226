/** What a peer reads from a serialized message. */
module MessageRoundTrip {
  import opened Text
  import opened XmlTags
  import opened XmlTree
  import opened XmlPieces
  import opened XmlRoundTrip
  import opened XmlDocuments
  import opened Decimal
  import opened Messages
  import Entities

  // ----- messages -----

  /** What a reader may ask of a message: a mac without NUL and sizes that fit a `size_t`. */
  predicate Sendable(m: Message) {
    match m
    case Hello(mac) => NUL !in mac
    case Offer(mac, _) => NUL !in mac
    case Request(cast, _) => |cast.values| < ULONG_RANGE
    case Response(cast, _) => |cast.values| < ULONG_RANGE
  }

  /** What arrives: macs come back escaped, blank macs are lost, dice of requests are zero. */
  function Received(m: Message): Result<Message> {
    match m
    case Hello(mac) => Ok(Hello(RereadContent(mac, false)))
    case Offer(mac, round) =>
      if round < INT_LIMIT then Ok(Offer(RereadContent(mac, false), round)) else Err(OutOfRange)
    case Request(cast, threshold) => Ok(Request(Cast(cast.kind, Zeros(|cast.values|)), threshold))
    case Response(_, _) => Ok(m)
  }

  /** Digits need no care in any place of a document. */
  lemma DigitsArePlain(s: string)
    requires AllDigits(s) && s != ""
    ensures NoMarkup(s) && (forall k | 0 <= k < |s| :: s[k] != '\"' && !Entities.IsSpecial(s[k]))
    ensures NUL !in s && !AllSpace(s)
  {
    assert IsDigit(s[0]) && !IsSpace(s[0]);
  }

  predicate NumberKey(key: string) {
    key == "size" || key == "round" || key == "successFrom" || key == "successCount"
  }

  lemma NumberKeyIsGood(key: string)
    requires NumberKey(key)
    ensures key != "" && IsAlpha(key[0]) && (forall k | 0 <= k < |key| :: key[k] != '=') && NoMarkup(key)
    ensures NUL !in key
  {
  }

  lemma DigitsAreGood(key: string, n: nat)
    requires NumberKey(key)
    ensures GoodAttribute((key, ToString(n)))
    ensures NUL !in ToString(n) && NUL !in key
    ensures !AllSpace(ToString(n)) && Entities.Escape(ToString(n)) == ToString(n)
  {
    hide ToString, NumberKey, NoMarkup, AllSpace, AllDigits, Entities.IsSpecial;
    ToStringValue(n);
    DigitsArePlain(ToString(n));
    NumberKeyIsGood(key);
    Entities.EscapeIdentity(ToString(n));
  }

  lemma TypeIsGood(kind: DieType)
    ensures GoodAttribute(("type", TypeName(kind))) && NUL !in TypeName(kind) && NUL !in "type"
    ensures forall size: nat :: MakeCast(TypeName(kind), size) == Ok(Cast(kind, Zeros(size)))
  {
  }

  lemma LeafReadable(name: string, content: string)
    requires name == "Mac" || name == "Val"
    ensures Readable(Leaf(name, content))
    ensures NUL !in content ==> Clean(Leaf(name, content))
  {
    assert !("!--" <= name);
  }

  lemma AttributesGood(m: Message)
    requires Sendable(m)
    ensures GoodMap(ElementOf(m).attrs)
    ensures forall key | key in ElementOf(m).attrs :: NUL !in key && NUL !in ElementOf(m).attrs[key]
  {
    hide GoodAttribute, ToString, TypeName;
    match m
    case Hello(_) =>
    case Offer(_, round) =>
      DigitsAreGood("round", round);
    case Request(cast, threshold) =>
      TypeIsGood(cast.kind);
      DigitsAreGood("size", |cast.values|);
      if threshold.Some? {
        DigitsAreGood("successFrom", threshold.value);
      }
    case Response(cast, count) =>
      TypeIsGood(cast.kind);
      DigitsAreGood("size", |cast.values|);
      if count.Some? {
        DigitsAreGood("successCount", count.value);
      }
  }

  lemma NamesGood(m: Message)
    ensures GoodName(ElementOf(m).name) && !("?" <= ElementOf(m).name) && NUL !in ElementOf(m).name
  {
    assert "?"[0] == '?' && "!--"[0] == '!';
    var name := ElementOf(m).name;
    assert name[0] == 'H' || name[0] == 'O' || name[0] == 'R';
  }

  lemma ChildrenGood(m: Message)
    requires Sendable(m)
    ensures forall k | 0 <= k < |ElementOf(m).children| ::
      Readable(ElementOf(m).children[k]) && Clean(ElementOf(m).children[k])
  {
    hide Readable, Clean, ToString;
    match m
    case Hello(mac) => LeafReadable("Mac", mac);
    case Offer(mac, _) => LeafReadable("Mac", mac);
    case Request(_, _) =>
    case Response(cast, _) =>
      forall k | 0 <= k < |cast.values|
        ensures Readable(ValueElements(cast.values)[k]) && Clean(ValueElements(cast.values)[k])
      {
        DigitsAreGood("size", cast.values[k]);
        LeafReadable("Val", ToString(cast.values[k]));
      }
  }

  /** The document of a message can be read back. */
  lemma DocumentGood(m: Message)
    requires Sendable(m)
    ensures Readable(ElementOf(m)) && Clean(ElementOf(m)) && !("?" <= ElementOf(m).name)
  {
    hide ElementOf, GoodMap, GoodName;
    AttributesGood(m);
    NamesGood(m);
    ChildrenGood(m);
    assert ElementOf(m).content == "" by { NoContentAtRoot(m); }
  }

  lemma NoContentAtRoot(m: Message)
    ensures ElementOf(m).content == ""
  {
  }

  // ----- what the reader makes of the tree that comes back -----

  lemma {:induction false} RereadAllAt(es: seq<Element>, replace: bool)
    ensures |RereadAll(es, replace)| == |es|
    ensures forall k | 0 <= k < |es| :: RereadAll(es, replace)[k] == Reread(es[k], replace)
  {
    hide Reread;
    if es != [] {
      RereadAllAt(es[1..], replace);
      assert forall k | 1 <= k < |es| :: es[k] == es[1..][k - 1];
    }
  }

  lemma LeafReread(name: string, content: string)
    ensures Reread(Leaf(name, content), false) == Leaf(name, RereadContent(content, false))
  {
  }

  lemma ValuesReread(values: seq<uint32>)
    ensures RereadAll(ValueElements(values), false) == ValueElements(values)
  {
    hide Reread, Leaf, ToString;
    var es := ValueElements(values);
    RereadAllAt(es, false);
    forall k | 0 <= k < |es|
      ensures Reread(es[k], false) == es[k]
    {
      var text := ToString(values[k]);
      DigitsAreGood("size", values[k]);
      LeafReread("Val", text);
      assert RereadContent(text, false) == text;
    }
  }

  /** Reading the values back from number `i` on. */
  lemma {:induction false} ValuesRead(values: seq<uint32>, i: nat)
    requires i <= |values|
    ensures ValuesFrom(ValueElements(values), i, |values|) == Ok(values[i..])
    decreases |values| - i
  {
    hide ToString, Stoul, Leaf;
    if i < |values| {
      ValuesRead(values, i + 1);
      ValueElementContent(values, i);
      StoulOfToString(values[i]);
      assert Truncate(values[i]) == values[i];
      assert [values[i]] + values[i + 1..] == values[i..];
    } else {
      assert values[i..] == [];
    }
  }

  lemma ValueElementContent(values: seq<uint32>, i: nat)
    requires i < |values|
    ensures |ValueElements(values)| == |values| && ValueElements(values)[i].content == ToString(values[i])
  {
  }

  /** The type and the size of the dice. */
  lemma CastRead(root: Element, cast: Cast)
    requires |cast.values| < ULONG_RANGE
    requires "type" in root.attrs && root.attrs["type"] == TypeName(cast.kind)
    requires "size" in root.attrs && root.attrs["size"] == ToString(|cast.values|)
    ensures AttributeValue(root, "type") == Ok(TypeName(cast.kind))
    ensures NumberAttribute(root, "size") == Ok(|cast.values|)
    ensures MakeCast(TypeName(cast.kind), |cast.values|) == Ok(Cast(cast.kind, Zeros(|cast.values|)))
    ensures CastOf(root) == Ok(Cast(cast.kind, Zeros(|cast.values|)))
  {
    hide ToString, Stoul, MakeCast, TypeName, Zeros;
    TypeIsGood(cast.kind);
    StoulOfToString(|cast.values|);
  }

  /** An attribute written for an optional number. */
  lemma OptionalRead(root: Element, cast: Cast, key: string, value: Option<size_t>)
    requires root.attrs == WithNumber(CastAttributes(cast), key, value)
    requires key != "type" && key != "size"
    ensures OptionalNumber(root, key) == Ok(value)
    ensures "type" in root.attrs && root.attrs["type"] == TypeName(cast.kind)
    ensures "size" in root.attrs && root.attrs["size"] == ToString(|cast.values|)
  {
    hide ToString, Stoul, TypeName;
    if value.Some? {
      StoulOfToString(value.value);
    }
  }

  lemma RequestRead(cast: Cast, threshold: Option<uint32>)
    requires |cast.values| < ULONG_RANGE
    ensures MessageOf(Reread(ElementOf(Request(cast, threshold)), false)) == Received(Request(cast, threshold))
  {
    hide ToString, Stoul, MakeCast, TypeName, Zeros, OptionalNumber, NumberAttribute, AttributeValue;
    var root := Reread(ElementOf(Request(cast, threshold)), false);
    OptionalRead(root, cast, "successFrom", threshold);
    CastRead(root, cast);
  }

  lemma ResponseRead(cast: Cast, count: Option<size_t>)
    requires |cast.values| < ULONG_RANGE
    ensures MessageOf(Reread(ElementOf(Response(cast, count)), false)) == Received(Response(cast, count))
  {
    hide ToString, Stoul, MakeCast, TypeName, OptionalNumber, NumberAttribute, AttributeValue, CastOf, ValuesFrom,
      ValueElements, RereadAll;
    var root := Reread(ElementOf(Response(cast, count)), false);
    ValuesReread(cast.values);
    OptionalRead(root, cast, "successCount", count);
    CastRead(root, cast);
    ValuesRead(cast.values, 0);
    assert cast.values[0..] == cast.values;
  }

  lemma MacRead(m: Message)
    requires m.Hello? || m.Offer?
    ensures Reread(ElementOf(m), false).children == [Leaf("Mac", RereadContent(m.mac, false))]
    ensures ChildNamed(Reread(ElementOf(m), false).children, "Mac") == Ok(Leaf("Mac", RereadContent(m.mac, false)))
  {
    hide RereadContent;
    var leaf := Leaf("Mac", m.mac);
    RereadAllAt([leaf], false);
    assert RereadAll([leaf], false) == [Reread(leaf, false)];
  }

  lemma OfferRead(mac: string, round: uint32)
    ensures MessageOf(Reread(ElementOf(Offer(mac, round)), false)) == Received(Offer(mac, round))
  {
    hide ToString, Stoi, RereadContent, RereadAll, ChildNamed;
    MacRead(Offer(mac, round));
    StoiOfToString(round);
  }

  lemma HelloRead(mac: string)
    ensures MessageOf(Reread(ElementOf(Hello(mac)), false)) == Received(Hello(mac))
  {
    hide RereadContent, RereadAll, ChildNamed;
    MacRead(Hello(mac));
  }

  lemma MessageRead(m: Message)
    requires Sendable(m)
    ensures MessageOf(Reread(ElementOf(m), false)) == Received(m)
  {
    hide MessageOf, Reread, ElementOf, Received;
    match m
    case Hello(mac) => HelloRead(mac);
    case Offer(mac, round) => OfferRead(mac, round);
    case Request(cast, threshold) => RequestRead(cast, threshold);
    case Response(cast, count) => ResponseRead(cast, count);
  }

  /** What a peer reads from a serialized message, for every attribute order of its document. */
  lemma DeserializeSerialized(m: Message, text: string)
    requires Sendable(m) && Prints(text, ElementOf(m))
    ensures Deserialize(text) == Received(m)
  {
    hide ElementOf, Reread, Received, Sendable, Readable, Clean, MessageOf, Prints, Parse, CString;
    DocumentGood(m);
    ParseAnyOrder(ElementOf(m), text, false);
    MessageRead(m);
  }

  /** The messages that arrive unchanged. */
  predicate Faithful(m: Message) {
    match m
    case Hello(mac) => PlainMac(mac)
    case Offer(mac, round) => PlainMac(mac) && round < INT_LIMIT
    case Request(cast, _) => forall k | 0 <= k < |cast.values| :: cast.values[k] == 0
    case Response(_, _) => true
  }

  /** Nothing to escape, and not a run of white space. */
  predicate PlainMac(mac: string) {
    (forall k | 0 <= k < |mac| :: !Entities.IsSpecial(mac[k])) && (AllSpace(mac) ==> mac == "")
  }

  lemma PlainMacArrives(mac: string)
    ensures RereadContent(mac, false) == mac <==> PlainMac(mac)
  {
    Entities.EscapeIdentity(mac);
    if AllSpace(mac) && mac != "" {
      assert IsSpace(mac[0]);
    }
  }

  lemma ZerosIs(values: seq<uint32>)
    ensures Zeros(|values|) == values <==> forall k | 0 <= k < |values| :: values[k] == 0
  {
  }

  /** The round trip holds exactly for the faithful messages. */
  lemma MessageRoundTrip(m: Message, text: string)
    requires Sendable(m) && Prints(text, ElementOf(m))
    ensures Deserialize(text) == Ok(m) <==> Faithful(m)
  {
    hide Deserialize, Prints, ElementOf, Sendable, RereadContent, PlainMac;
    DeserializeSerialized(m, text);
    if m.Hello? || m.Offer? {
      PlainMacArrives(m.mac);
    } else {
      ZerosIs(m.cast.values);
    }
  }
}
