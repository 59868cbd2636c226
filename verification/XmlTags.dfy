/** Reading one token of markup: its kind, the element name and the attributes. */
module XmlTags {
  import opened Text

  datatype Token = Open | OpenClose | Close | Content | Comment | Error

  type Attributes = map<string, string>

  /** The test "equal to `c`" as a value, for the searches below. */
  function Is(c: char): char -> bool {
    x => x == c
  }

  predicate IsCommentStart(text: string, i: nat) {
    At(text, i) == '<' && At(text, i + 1) == '!' && At(text, i + 2) == '-' && At(text, i + 3) == '-'
  }

  predicate IsCommentEnd(text: string, i: nat) {
    At(text, i) == '-' && At(text, i + 1) == '-' && At(text, i + 2) == '>'
  }

  /** Kind of the token `[from, to)`; it may look at characters behind `to`, as the source does. */
  function DetermineToken(text: string, from: nat, to: nat): Token
  {
    if At(text, from) == '<' then
      if At(text, from + 1) == '/' then Close
      else if IsCommentStart(text, from) then Comment
      else
        var end := Find(text, from, to, Is('>'));
        if end == to then Error
        else if At(text, end - 1) == '/' then OpenClose
        else Open
    else Content
  }

  predicate EndsName(c: char) {
    IsSpace(c) || c == '>' || c == '/'
  }

  predicate EndsNamePart(c: char) {
    c == '>' || IsSpace(c)
  }

  function ExtractName(text: string, from: nat, to: nat): string
  {
    Slice(text, from + 1, Find(text, from + 1, to, EndsName))
  }

  /** `emplace`: the first value given for a key stays. */
  function Emplace(attrs: Attributes, key: string, value: string): Attributes {
    if key in attrs then attrs else attrs[key := value]
  }

  /**
   The attribute pairs found from `from` on. None stands for a key without "=" and a quote behind it,
   where the source searches behind the end of the token.
   */
  function AttributesFrom(text: string, from: nat, to: nat, attrs: Attributes): Option<Attributes>
    decreases (to as int) - (from as int)
  {
    var keyBegin := Find(text, from, to, IsAlpha);
    if from >= to || keyBegin == to then Some(attrs)
    else
      var keyEnd := Find(text, keyBegin, to, Is('='));
      if keyEnd + 2 > to then None
      else
        var valueEnd := Find(text, keyEnd + 2, to, Is(At(text, keyEnd + 1)));
        AttributesFrom(text, valueEnd, to,
                       Emplace(attrs, Slice(text, keyBegin, keyEnd), Slice(text, keyEnd + 2, valueEnd)))
  }

  /** All attributes of the tag `[from, to)`. */
  function AttributesOf(text: string, from: nat, to: nat): Option<Attributes>
  {
    AttributesFrom(text, Find(text, from, to, EndsNamePart), to, map[])
  }

  /** One turn of the loop over the attributes. */
  lemma AttributesTurn(text: string, from: nat, to: nat, attrs: Attributes)
    ensures from >= to ==> AttributesFrom(text, from, to, attrs) == Some(attrs)
    ensures from < to ==>
      var keyBegin := Find(text, from, to, IsAlpha);
      var keyEnd := Find(text, keyBegin, to, Is('='));
      var valueEnd := Find(text, keyEnd + 2, to, Is(At(text, keyEnd + 1)));
      AttributesFrom(text, from, to, attrs)
      == if keyBegin == to then Some(attrs) else if keyEnd + 2 > to then None
         else AttributesFrom(text, valueEnd, to,
                             Emplace(attrs, Slice(text, keyBegin, keyEnd), Slice(text, keyEnd + 2, valueEnd)))
  {
    hide Find, Is, IsAlpha, Slice, Emplace, At;
  }

  method ExtractAttributes(text: string, from: nat, to: nat) returns (attrs: Option<Attributes>)
    ensures attrs == AttributesOf(text, from, to)
  {
    hide AttributesFrom, Find, Is, IsAlpha, EndsNamePart, Slice, Emplace, At;
    var found: Attributes := map[];
    var begin := Find(text, from, to, EndsNamePart);
    while begin < to
      invariant AttributesOf(text, from, to) == AttributesFrom(text, begin, to, found)
    {
      AttributesTurn(text, begin, to, found);
      var keyBegin := Find(text, begin, to, IsAlpha);
      if keyBegin == to {
        return Some(found);
      }
      var keyEnd := Find(text, keyBegin, to, Is('='));
      if keyEnd + 2 > to {
        return None;
      }
      var valueEnd := Find(text, keyEnd + 2, to, Is(At(text, keyEnd + 1)));
      found := Emplace(found, Slice(text, keyBegin, keyEnd), Slice(text, keyEnd + 2, valueEnd));
      begin := valueEnd;
    }
    AttributesTurn(text, begin, to, found);
    return Some(found);
  }
}
