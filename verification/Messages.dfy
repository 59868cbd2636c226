/** The messages of the game and their XML form. */
module Messages {
  import opened Text
  import opened XmlTags
  import opened XmlTree
  import opened Decimal

  datatype DieType = D4 | D6 | D8 | D10 | D12 | D16 | D20 | D100

  datatype Cast = Cast(kind: DieType, values: seq<uint32>)

  datatype Message =
    | Hello(mac: string)
    | Offer(mac: string, round: uint32)
    | Request(cast: Cast, threshold: Option<uint32>)
    | Response(cast: Cast, successCount: Option<size_t>)

  function TypeName(kind: DieType): string {
    match kind
    case D4 => "D4"
    case D6 => "D6"
    case D8 => "D8"
    case D10 => "D10"
    case D12 => "D12"
    case D16 => "D16"
    case D20 => "D20"
    case D100 => "D100"
  }

  function Zeros(n: nat): seq<uint32> {
    seq(n, _ => 0)
  }

  function MakeCast(name: string, size: nat): Result<Cast> {
    if name == "D4" then Ok(Cast(D4, Zeros(size)))
    else if name == "D6" then Ok(Cast(D6, Zeros(size)))
    else if name == "D8" then Ok(Cast(D8, Zeros(size)))
    else if name == "D10" then Ok(Cast(D10, Zeros(size)))
    else if name == "D12" then Ok(Cast(D12, Zeros(size)))
    else if name == "D16" then Ok(Cast(D16, Zeros(size)))
    else if name == "D20" then Ok(Cast(D20, Zeros(size)))
    else if name == "D100" then Ok(Cast(D100, Zeros(size)))
    else Err(InvalidArgument)
  }

  // ----- serialization -----

  function Leaf(name: string, content: string): Element {
    Element(name, content, map[], [])
  }

  function ValueElements(values: seq<uint32>): seq<Element> {
    seq(|values|, i requires 0 <= i < |values| => Leaf("Val", ToString(values[i])))
  }

  function CastAttributes(cast: Cast): Attributes {
    map["type" := TypeName(cast.kind), "size" := ToString(|cast.values|)]
  }

  /** `AddAttribute` under `key` when there is a value. */
  function WithNumber(attrs: Attributes, key: string, value: Option<nat>): Attributes {
    match value
    case None => attrs
    case Some(n) => attrs[key := ToString(n)]
  }

  /** The document a message is turned into. */
  function ElementOf(m: Message): Element {
    match m
    case Hello(mac) => Element("Hello", "", map[], [Leaf("Mac", mac)])
    case Offer(mac, round) => Element("Offer", "", map["round" := ToString(round)], [Leaf("Mac", mac)])
    case Request(cast, threshold) =>
      Element("Request", "", WithNumber(CastAttributes(cast), "successFrom", threshold), [])
    case Response(cast, successCount) =>
      Element("Response", "", WithNumber(CastAttributes(cast), "successCount", successCount),
              ValueElements(cast.values))
  }

  /** The four overloads of Serialize; the attributes come in the order the hash table happens to have. */
  method Serialize(m: Message) returns (text: string)
    ensures Prints(text, ElementOf(m))
  {
    hide Prints;
    var doc: Element;
    match m {
      case Hello(mac) =>
        doc := Element("Hello", "", map[], [Leaf("Mac", mac)]);
      case Offer(mac, round) =>
        doc := Element("Offer", "", map["round" := ToString(round)], [Leaf("Mac", mac)]);
      case Request(cast, threshold) =>
        doc := Element("Request", "", CastAttributes(cast), []);
        if threshold.Some? {
          doc := doc.(attrs := doc.attrs["successFrom" := ToString(threshold.value)]);
        }
      case Response(cast, successCount) =>
        doc := ResponseDocument(cast);
        if successCount.Some? {
          doc := doc.(attrs := doc.attrs["successCount" := ToString(successCount.value)]);
        }
    }
    text := WriteElement(doc);
  }

  method ResponseDocument(cast: Cast) returns (doc: Element)
    ensures doc == Element("Response", "", CastAttributes(cast), ValueElements(cast.values))
  {
    doc := Element("Response", "", CastAttributes(cast), []);
    var i := 0;
    while i < |cast.values|
      invariant i <= |cast.values|
      invariant doc == Element("Response", "", CastAttributes(cast), ValueElements(cast.values)[..i])
    {
      doc := doc.(children := doc.children + [Leaf("Val", ToString(cast.values[i]))]);
      i := i + 1;
    }
  }

  // ----- parsing -----

  function AttributeValue(e: Element, key: string): Result<string> {
    if key in e.attrs then Ok(e.attrs[key]) else Err(XmlError)
  }

  function ChildNamed(children: seq<Element>, name: string): Result<Element> {
    if children == [] then Err(XmlError)
    else if children[0].name == name then Ok(children[0])
    else ChildNamed(children[1..], name)
  }

  function NumberAttribute(e: Element, key: string): Result<size_t> {
    match AttributeValue(e, key)
    case Err(error) => Err(error)
    case Ok(text) => Stoul(text)
  }

  /** A missing attribute means no value; a malformed one is an error that is not caught. */
  function OptionalNumber(e: Element, key: string): Result<Option<size_t>> {
    if key !in e.attrs then Ok(None)
    else
      match Stoul(e.attrs[key])
      case Err(error) => Err(error)
      case Ok(n) => Ok(Some(n))
  }

  /** Assignment of an unsigned long to a `uint32_t`. */
  function Truncate(n: size_t): uint32 {
    n % UINT32_RANGE
  }

  function CastOf(root: Element): Result<Cast> {
    match AttributeValue(root, "type")
    case Err(error) => Err(error)
    case Ok(name) =>
      match NumberAttribute(root, "size")
      case Err(error) => Err(error)
      case Ok(size) => MakeCast(name, size)
  }

  function Truncated(n: Option<size_t>): Option<uint32> {
    match n
    case None => None
    case Some(value) => Some(Truncate(value))
  }

  /** The checks in the order of the source: type, size, threshold, then the kind of dice. */
  function ParseRequest(root: Element): Result<Message> {
    match AttributeValue(root, "type")
    case Err(error) => Err(error)
    case Ok(name) =>
      match NumberAttribute(root, "size")
      case Err(error) => Err(error)
      case Ok(size) =>
        match OptionalNumber(root, "successFrom")
        case Err(error) => Err(error)
        case Ok(threshold) =>
          match MakeCast(name, size)
          case Err(error) => Err(error)
          case Ok(cast) => Ok(Request(cast, Truncated(threshold)))
  }

  function After(first: seq<uint32>, r: Result<seq<uint32>>): Result<seq<uint32>> {
    match r
    case Err(error) => Err(error)
    case Ok(rest) => Ok(first + rest)
  }

  lemma AfterTwice(a: seq<uint32>, b: seq<uint32>, r: Result<seq<uint32>>)
    ensures After(a, After(b, r)) == After(a + b, r)
    ensures After([], r) == r
  {
    if r.Ok? {
      assert a + (b + r.value) == (a + b) + r.value;
      assert [] + r.value == r.value;
    }
  }

  /** The values of the first `size` children from number `i` on. */
  function ValuesFrom(children: seq<Element>, i: nat, size: nat): Result<seq<uint32>>
    decreases size - i
  {
    if i >= size then Ok([])
    else if i >= |children| then Err(XmlError)
    else
      match Stoul(children[i].content)
      case Err(error) => Err(error)
      case Ok(n) => After([Truncate(n)], ValuesFrom(children, i + 1, size))
  }

  function ParseResponse(root: Element): Result<Message> {
    match CastOf(root)
    case Err(error) => Err(error)
    case Ok(cast) =>
      match ValuesFrom(root.children, 0, |cast.values|)
      case Err(error) => Err(error)
      case Ok(values) =>
        match OptionalNumber(root, "successCount")
        case Err(error) => Err(error)
        case Ok(count) => Ok(Response(Cast(cast.kind, values), count))
  }

  function ParseHello(root: Element): Result<Message> {
    match ChildNamed(root.children, "Mac")
    case Err(error) => Err(error)
    case Ok(child) => Ok(Hello(child.content))
  }

  function ParseOffer(root: Element): Result<Message> {
    match ChildNamed(root.children, "Mac")
    case Err(error) => Err(error)
    case Ok(child) =>
      match AttributeValue(root, "round")
      case Err(error) => Err(error)
      case Ok(text) =>
        match Stoi(text)
        case Err(error) => Err(error)
        case Ok(n) => Ok(Offer(child.content, (n + UINT32_RANGE) % UINT32_RANGE))
  }

  function MessageOf(root: Element): Result<Message> {
    if root.name == "Request" then ParseRequest(root)
    else if root.name == "Response" then ParseResponse(root)
    else if root.name == "Hello" then ParseHello(root)
    else if root.name == "Offer" then ParseOffer(root)
    else Err(InvalidArgument)
  }

  /** Parsed with entity replacement off; the text ends at its first NUL. */
  function Deserialize(message: string): Result<Message> {
    match Parse(CString(message), false)
    case Parsed(root) => MessageOf(root)
    case OutOfBounds => Err(BadRead)
    case _ => Err(XmlError)
  }

  /** The loop of ParseResponse over the children, and FillValues over the dice. */
  method ReadValues(children: seq<Element>, size: nat) returns (r: Result<seq<uint32>>)
    ensures r == ValuesFrom(children, 0, size)
  {
    var values: seq<uint32> := [];
    var i := 0;
    AfterTwice([], [], ValuesFrom(children, 0, size));
    while i < size
      invariant i <= size
      invariant ValuesFrom(children, 0, size) == After(values, ValuesFrom(children, i, size))
    {
      if i >= |children| {
        return Err(XmlError);
      }
      var n := Stoul(children[i].content);
      if n.Err? {
        return Err(n.error);
      }
      AfterTwice(values, [Truncate(n.value)], ValuesFrom(children, i + 1, size));
      values := values + [Truncate(n.value)];
      i := i + 1;
    }
    assert values + [] == values;
    return Ok(values);
  }

  method DeserializeText(message: string) returns (r: Result<Message>)
    requires CString(message) != ""
    ensures r == Deserialize(message)
  {
    CStringNoNul(message);
    var outcome, _ := ParseDocument(CString(message), false);
    if outcome.OutOfBounds? {
      return Err(BadRead);
    }
    if !outcome.Parsed? {
      return Err(XmlError);
    }
    var root := outcome.root;
    if root.name != "Response" {
      return MessageOf(root);
    }
    var cast := CastOf(root);
    if cast.Err? {
      return Err(cast.error);
    }
    var values := ReadValues(root.children, |cast.value.values|);
    if values.Err? {
      return Err(values.error);
    }
    var count := OptionalNumber(root, "successCount");
    if count.Err? {
      return Err(count.error);
    }
    return Ok(Response(Cast(cast.value.kind, values.value), count.value));
  }
}
