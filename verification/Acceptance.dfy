/** Exactly which documents are accepted as messages, and what is made of them. */
module Acceptance {
  import opened Text
  import opened XmlTags
  import opened XmlTree
  import opened Decimal
  import opened Messages

  predicate HasNumber(e: Element, key: string) {
    key in e.attrs && Stoul(e.attrs[key]).Ok?
  }

  function NumberOf(e: Element, key: string): size_t
    requires HasNumber(e, key)
  {
    Stoul(e.attrs[key]).value
  }

  /** An attribute that may be missing, but must be a number if it is there. */
  predicate MayHaveNumber(e: Element, key: string) {
    key in e.attrs ==> HasNumber(e, key)
  }

  predicate HasKind(e: Element) {
    "type" in e.attrs && exists kind: DieType :: TypeName(kind) == e.attrs["type"]
  }

  lemma TypeNames(name: string, size: nat)
    ensures MakeCast(name, size).Ok? <==> exists kind: DieType :: TypeName(kind) == name
    ensures MakeCast(name, size).Ok? ==>
      var cast := MakeCast(name, size).value;
      TypeName(cast.kind) == name && |cast.values| == size && forall k | 0 <= k < size :: cast.values[k] == 0
    ensures MakeCast(name, size).Err? ==> MakeCast(name, size).error == InvalidArgument
  {
    if MakeCast(name, size).Ok? {
      assert TypeName(MakeCast(name, size).value.kind) == name;
    }
    if exists kind: DieType :: TypeName(kind) == name {
      var kind: DieType :| TypeName(kind) == name;
      match kind
      case D4 =>
      case D6 =>
      case D8 =>
      case D10 =>
      case D12 =>
      case D16 =>
      case D20 =>
      case D100 =>
    }
  }

  /** A request needs a kind of dice and a number of them; its threshold is cut down to 32 bits. */
  lemma RequestAccepted(root: Element)
    requires root.name == "Request"
    ensures MessageOf(root).Ok? <==> HasKind(root) && HasNumber(root, "size") && MayHaveNumber(root, "successFrom")
    ensures MessageOf(root).Ok? ==>
      var m := MessageOf(root).value;
      && m.Request? && TypeName(m.cast.kind) == root.attrs["type"]
      && |m.cast.values| == NumberOf(root, "size") && (forall k | 0 <= k < |m.cast.values| :: m.cast.values[k] == 0)
      && (m.threshold.Some? <==> "successFrom" in root.attrs)
      && (m.threshold.Some? ==> m.threshold.value == NumberOf(root, "successFrom") % 0x1_0000_0000)
  {
    hide Stoul, MakeCast, TypeName;
    if "type" in root.attrs && HasNumber(root, "size") {
      TypeNames(root.attrs["type"], NumberOf(root, "size"));
    }
  }

  predicate HasValues(e: Element, size: nat) {
    |e.children| >= size && forall k | 0 <= k < size :: Stoul(e.children[k].content).Ok?
  }

  /** A response needs as many children with numbers as it announces; more are ignored, and so are their names. */
  lemma ResponseAccepted(root: Element)
    requires root.name == "Response"
    ensures MessageOf(root).Ok? <==>
      HasKind(root) && HasNumber(root, "size") && HasValues(root, NumberOf(root, "size")) && MayHaveNumber(root, "successCount")
    ensures MessageOf(root).Ok? ==>
      var m := MessageOf(root).value;
      && m.Response? && TypeName(m.cast.kind) == root.attrs["type"] && |m.cast.values| == NumberOf(root, "size")
      && (forall k | 0 <= k < |m.cast.values| ::
            m.cast.values[k] == Stoul(root.children[k].content).value % 0x1_0000_0000)
      && m.successCount == if "successCount" in root.attrs then Some(NumberOf(root, "successCount")) else None
  {
    hide Stoul, MakeCast, TypeName;
    if "type" in root.attrs && HasNumber(root, "size") {
      TypeNames(root.attrs["type"], NumberOf(root, "size"));
      ValuesAccepted(root.children, 0, NumberOf(root, "size"));
    }
  }

  lemma {:induction false} ValuesAccepted(children: seq<Element>, i: nat, size: nat)
    requires i <= size
    ensures ValuesFrom(children, i, size).Ok?
       <==> (i < size ==> |children| >= size) && forall k | i <= k < size :: k < |children| && Stoul(children[k].content).Ok?
    ensures ValuesFrom(children, i, size).Ok? ==>
      var values := ValuesFrom(children, i, size).value;
      && |values| == size - i
      && forall k | i <= k < size :: k < |children| && Stoul(children[k].content).Ok?
                                     && values[k - i] == Stoul(children[k].content).value % 0x1_0000_0000
    decreases size - i
  {
    hide Stoul;
    if i < size {
      ValuesAccepted(children, i + 1, size);
    }
  }

  predicate IsFirstNamed(children: seq<Element>, k: nat, name: string) {
    k < |children| && children[k].name == name && forall i | 0 <= i < k :: children[i].name != name
  }

  lemma {:induction false} FirstNamed(children: seq<Element>, name: string)
    ensures ChildNamed(children, name).Ok? <==> exists c :: c in children && c.name == name
    ensures ChildNamed(children, name).Ok? ==>
      exists k: nat :: IsFirstNamed(children, k, name) && ChildNamed(children, name).value == children[k]
    ensures ChildNamed(children, name).Err? ==> ChildNamed(children, name).error == XmlError
  {
    if children != [] {
      FirstNamed(children[1..], name);
      assert children == [children[0]] + children[1..];
      if children[0].name == name {
        assert IsFirstNamed(children, 0, name);
      } else if ChildNamed(children, name).Ok? {
        var k: nat :| IsFirstNamed(children[1..], k, name) && ChildNamed(children[1..], name).value == children[1..][k];
        assert forall i | 0 < i <= k :: children[i] == children[1..][i - 1];
        assert IsFirstNamed(children, k + 1, name);
      }
    }
  }

  /** What a signed number becomes when it is assigned to an unsigned one of 32 bits. */
  predicate WrapsTo(n: int, r: nat) {
    r < 0x1_0000_0000 && (r - n) % 0x1_0000_0000 == 0
  }

  lemma WrapsAround(n: int)
    ensures WrapsTo(n, (n + UINT32_RANGE) % UINT32_RANGE)
  {
    var r := (n + UINT32_RANGE) % UINT32_RANGE;
    assert r - n == UINT32_RANGE * (1 - (n + UINT32_RANGE) / UINT32_RANGE);
  }

  /** The content of the first child of a name. */
  ghost predicate IsFirstContent(children: seq<Element>, name: string, content: string) {
    exists k: nat :: IsFirstNamed(children, k, name) && children[k].content == content
  }

  lemma FirstContent(children: seq<Element>, name: string)
    ensures ChildNamed(children, name).Ok? <==> exists c :: c in children && c.name == name
    ensures ChildNamed(children, name).Ok? ==> IsFirstContent(children, name, ChildNamed(children, name).value.content)
  {
    hide ChildNamed;
    FirstNamed(children, name);
    if ChildNamed(children, name).Ok? {
      var k: nat :| IsFirstNamed(children, k, name) && ChildNamed(children, name).value == children[k];
      assert children[k].content == ChildNamed(children, name).value.content;
    }
  }

  /** A greeting needs a child for the address, the first one so named. */
  lemma HelloAccepted(root: Element)
    requires root.name == "Hello"
    ensures MessageOf(root).Ok? <==> exists c :: c in root.children && c.name == "Mac"
    ensures MessageOf(root).Ok? ==>
      MessageOf(root).value.Hello? && IsFirstContent(root.children, "Mac", MessageOf(root).value.mac)
  {
    hide ChildNamed, IsFirstContent;
    FirstContent(root.children, "Mac");
  }

  /** An offer needs a round besides, read as a signed number. */
  lemma OfferAccepted(root: Element)
    requires root.name == "Offer"
    ensures MessageOf(root).Ok? <==>
      (exists c :: c in root.children && c.name == "Mac") && "round" in root.attrs && Stoi(root.attrs["round"]).Ok?
    ensures MessageOf(root).Ok? ==>
      var m := MessageOf(root).value;
      m.Offer? && IsFirstContent(root.children, "Mac", m.mac) && WrapsTo(Stoi(root.attrs["round"]).value, m.round)
  {
    hide Stoi, ChildNamed, WrapsTo, IsFirstContent;
    FirstContent(root.children, "Mac");
    if "round" in root.attrs && Stoi(root.attrs["round"]).Ok? {
      WrapsAround(Stoi(root.attrs["round"]).value);
    }
  }

  /** Of several faults the source reports the first it meets. */
  lemma FaultReported(root: Element)
    ensures root.name !in ["Request", "Response", "Hello", "Offer"] ==> MessageOf(root) == Err(InvalidArgument)
    ensures root.name == "Request" || root.name == "Response" ==>
      && ("type" !in root.attrs || "size" !in root.attrs ==> MessageOf(root) == Err(XmlError))
      && ("type" in root.attrs && "size" in root.attrs && Stoul(root.attrs["size"]).Err? ==>
            MessageOf(root) == Err(Stoul(root.attrs["size"]).error))
    ensures root.name == "Request" && "type" in root.attrs && HasNumber(root, "size") ==>
      if !MayHaveNumber(root, "successFrom") then MessageOf(root) == Err(Stoul(root.attrs["successFrom"]).error)
      else HasKind(root) || MessageOf(root) == Err(InvalidArgument)
    ensures root.name == "Response" && "type" in root.attrs && HasNumber(root, "size") ==>
      && (!HasKind(root) ==> MessageOf(root) == Err(InvalidArgument))
      && (HasKind(root) && HasValues(root, NumberOf(root, "size")) && !MayHaveNumber(root, "successCount") ==>
            MessageOf(root) == Err(Stoul(root.attrs["successCount"]).error))
    ensures root.name == "Hello" || root.name == "Offer" ==>
      (forall c | c in root.children :: c.name != "Mac") ==> MessageOf(root) == Err(XmlError)
  {
    hide Stoul, MakeCast, TypeName, ChildNamed;
    FirstNamed(root.children, "Mac");
    if "type" in root.attrs && HasNumber(root, "size") {
      TypeNames(root.attrs["type"], NumberOf(root, "size"));
      ValuesAccepted(root.children, 0, NumberOf(root, "size"));
    }
  }

  /** A message ends at its first NUL. */
  lemma EndsAtNul(message: string, rest: string)
    requires NUL !in message
    ensures Deserialize(message + [NUL] + rest) == Deserialize(message)
  {
    hide Parse, MessageOf;
    CStringEnds(message, rest);
    CStringWhole(message);
  }
}
