/** The messages as they go over the air, character by character. */
module Wire {
  import opened Text
  import opened XmlTags
  import opened XmlTree
  import opened XmlDocuments
  import opened Decimal
  import opened Messages
  import XmlDeclarations
  import Entities

  // ----- the order of attributes -----

  lemma ListedOnce(order: AttributeList, attr: (string, string))
    requires DistinctKeys(order)
    ensures multiset(order)[attr] == if attr in order then 1 else 0
  {
    if attr in order {
      var k :| 0 <= k < |order| && order[k] == attr;
      assert order == order[..k] + [attr] + order[k + 1..];
      assert attr !in order[..k] && attr !in order[k + 1..];
    }
  }

  lemma ListedIsEntry(order: AttributeList, attr: (string, string))
    requires DistinctKeys(order)
    ensures var attrs := EmplaceAll(map[], order);
      attr in order <==> attr.0 in attrs && attrs[attr.0] == attr.1
  {
    EmplacedEntries(map[], order);
    XmlDeclarations.EmplacedKeys(map[], order);
    var attrs := EmplaceAll(map[], order);
    if attr.0 in attrs && attrs[attr.0] == attr.1 {
      var k :| 0 <= k < |order| && order[k].0 == attr.0;
      assert order[k] == attr;
    }
  }

  /** Two listings of the same map differ in nothing but the order. */
  lemma SameListing(order: AttributeList, other: AttributeList)
    requires DistinctKeys(order) && DistinctKeys(other)
    requires EmplaceAll(map[], order) == EmplaceAll(map[], other)
    ensures multiset(order) == multiset(other)
  {
    forall attr
      ensures multiset(order)[attr] == multiset(other)[attr]
    {
      ListedOnce(order, attr);
      ListedOnce(other, attr);
      ListedIsEntry(order, attr);
      ListedIsEntry(other, attr);
    }
  }

  lemma OneListing(order: AttributeList, attr: (string, string))
    requires DistinctKeys(order) && EmplaceAll(map[], order) == map[attr.0 := attr.1]
    ensures order == [attr]
  {
    assert [attr][1..] == [];
    assert EmplaceAll(map[], [attr]) == EmplaceAll(map[attr.0 := attr.1], []);
    SameListing(order, [attr]);
    assert |order| == |multiset(order)| == |multiset([attr])| == 1;
    assert order[0] in multiset([attr]);
  }

  lemma NoListing(order: AttributeList)
    requires DistinctKeys(order) && EmplaceAll(map[], order) == map[]
    ensures order == []
  {
    assert EmplaceAll(map[], []) == map[];
    SameListing(order, []);
    assert |order| == |multiset(order)| == 0;
  }

  // ----- leaves -----

  /** A leaf without attributes: a single tag when it is empty. */
  function LeafText(name: string, content: string): string {
    if content == "" then "<" + name + " />" else "<" + name + ">" + Entities.Escape(content) + "</" + name + ">"
  }

  lemma LeafPrinted(t: OrderedElement, name: string, content: string)
    requires Unordered(t) == Leaf(name, content) && HasDistinctKeys(t)
    ensures Print(t) == LeafText(name, content)
  {
    NoListing(t.attrs);
    NoChildrenBelow(t.children);
    assert PrintAttributes([]) == "" && PrintAll([]) == "";
    assert "<" + name + "" + " />" == "<" + name + " />";
  }

  lemma NoChildrenBelow(es: seq<OrderedElement>)
    ensures UnorderedAll(es) == [] ==> es == []
  {
  }

  function LeavesText(name: string, contents: seq<string>): string {
    if contents == [] then "" else LeafText(name, contents[0]) + LeavesText(name, contents[1..])
  }

  lemma {:induction false} LeavesPrinted(ts: seq<OrderedElement>, name: string, contents: seq<string>)
    requires AllDistinctKeys(ts) && |UnorderedAll(ts)| == |contents|
    requires forall k | 0 <= k < |contents| :: UnorderedAll(ts)[k] == Leaf(name, contents[k])
    ensures PrintAll(ts) == LeavesText(name, contents)
    decreases |ts|
  {
    hide Print, LeafText, HasDistinctKeys, Unordered;
    if ts != [] {
      var all := UnorderedAll(ts);
      assert all[0] == Unordered(ts[0]) && all[1..] == UnorderedAll(ts[1..]);
      LeafPrinted(ts[0], name, contents[0]);
      forall k | 0 <= k < |contents[1..]|
        ensures UnorderedAll(ts[1..])[k] == Leaf(name, contents[1..][k])
      {
        assert all[k + 1] == all[1..][k] && contents[k + 1] == contents[1..][k];
      }
      LeavesPrinted(ts[1..], name, contents[1..]);
    }
  }

  /** An element whose children are leaves of one name: its content stands in front of them. */
  lemma PrintedAround(text: string, e: Element, name: string, contents: seq<string>) returns (order: AttributeList)
    requires Prints(text, e) && |e.children| == |contents|
    requires forall k | 0 <= k < |contents| :: e.children[k] == Leaf(name, contents[k])
    ensures DistinctKeys(order) && EmplaceAll(map[], order) == e.attrs
    ensures text == if e.content == "" && contents == [] then "<" + e.name + PrintAttributes(order) + " />"
      else "<" + e.name + PrintAttributes(order) + ">" + Entities.Escape(e.content) + LeavesText(name, contents)
           + "</" + e.name + ">"
    ensures e.content == "" && contents != [] ==>
      text == "<" + e.name + PrintAttributes(order) + ">" + LeavesText(name, contents) + "</" + e.name + ">"
  {
    hide PrintAttributes, LeavesText, EmplaceAll, DistinctKeys, Entities.Escape;
    var t :| Unordered(t) == e && HasDistinctKeys(t) && text == Print(t);
    order := t.attrs;
    NoChildrenBelow(t.children);
    ChildrenCount(t.children);
    LeavesPrinted(t.children, name, contents);
    NothingToEscape();
    var tag, end := "<" + e.name + PrintAttributes(order) + ">", "</" + e.name + ">";
    Closing(tag + Entities.Escape(e.content) + LeavesText(name, contents), e.name);
    Closing(tag + LeavesText(name, contents), e.name);
    assert tag + "" == tag;
  }

  lemma Closing(body: string, name: string)
    ensures body + "</" + name + ">" == body + ("</" + name + ">")
  {
  }

  lemma {:induction false} ChildrenCount(es: seq<OrderedElement>)
    ensures |UnorderedAll(es)| == |es|
  {
    if es != [] {
      ChildrenCount(es[1..]);
    }
  }

  lemma NothingToEscape()
    ensures Entities.Escape("") == ""
  {
  }

  // ----- the four messages -----

  lemma OneLeaf(name: string, content: string)
    ensures LeavesText(name, [content]) == LeafText(name, content)
  {
    hide LeafText;
    assert [content][1..] == [];
    assert LeavesText(name, []) == "";
  }

  lemma HelloText(mac: string, text: string)
    requires Prints(text, ElementOf(Hello(mac)))
    ensures text == "<Hello>" + LeafText("Mac", mac) + "</Hello>"
  {
    hide Prints, LeafText, DistinctKeys;
    var order := PrintedAround(text, ElementOf(Hello(mac)), "Mac", [mac]);
    NoListing(order);
    OneLeaf("Mac", mac);
    assert "<" + "Hello" + "" + ">" == "<Hello>" && "</" + "Hello" + ">" == "</Hello>";
  }

  lemma Rejoined(a: string, b: string, c: string, n: string, d: string, e: string)
    ensures a + b + (c + n + d) + e == (a + b + c) + n + (d + e)
  {
  }

  lemma OfferTag(number: string)
    ensures "<" + "Offer" + (" round=\"" + number + "\"") + ">" == "<Offer round=\"" + number + "\">"
  {
    Rejoined("<", "Offer", " round=\"", number, "\"", ">");
    assert "<" + "Offer" + " round=\"" == "<Offer round=\"" && "\"" + ">" == "\">";
  }

  lemma OfferText(mac: string, round: uint32, text: string)
    requires Prints(text, ElementOf(Offer(mac, round)))
    ensures text == "<Offer round=\"" + ToString(round) + "\">" + LeafText("Mac", mac) + "</Offer>"
  {
    hide Prints, LeafText, ToString, DistinctKeys, PrintAttributes;
    var number := ToString(round);
    var order := PrintedAround(text, ElementOf(Offer(mac, round)), "Mac", [mac]);
    OneListing(order, ("round", number));
    OneLeaf("Mac", mac);
    OneAttribute("round", number);
    assert " " + "round" + "=\"" == " round=\"";
    OfferTag(number);
    assert "</" + "Offer" + ">" == "</Offer>";
  }

  lemma OneAttribute(key: string, value: string)
    ensures PrintAttributes([(key, value)]) == " " + key + "=\"" + value + "\""
  {
    assert [(key, value)][1..] == [];
    assert PrintAttributes([]) == "";
  }

  /** The attributes of a request or a response, in any order. */
  function CastEntries(cast: Cast, key: string, number: Option<nat>): AttributeList {
    [("type", TypeName(cast.kind)), ("size", ToString(|cast.values|))]
    + match number case None => [] case Some(n) => [(key, ToString(n))]
  }

  lemma EntriesOfCast(cast: Cast, key: string, number: Option<nat>)
    requires key != "type" && key != "size"
    ensures DistinctKeys(CastEntries(cast, key, number))
    ensures EmplaceAll(map[], CastEntries(cast, key, number)) == WithNumber(CastAttributes(cast), key, number)
  {
    hide ToString, TypeName;
    var order := CastEntries(cast, key, number);
    assert "type"[0] != "size"[0];
    assert order[1..][0] == order[1];
    var two := Emplace(Emplace(map[], order[0].0, order[0].1), order[1].0, order[1].1);
    assert two == CastAttributes(cast);
    assert EmplaceAll(map[], order) == EmplaceAll(two, order[1..][1..]);
    assert order[1..][1..] == order[2..];
    if number.Some? {
      assert order[2..] == [(key, ToString(number.value))] && order[2..][1..] == [];
      assert EmplaceAll(two, order[2..]) == EmplaceAll(Emplace(two, key, ToString(number.value)), []);
    }
  }

  /** What is sent of a request are kind, number and threshold of its dice, and not their values. */
  lemma RequestText(cast: Cast, threshold: Option<uint32>, text: string)
    requires Prints(text, ElementOf(Request(cast, threshold)))
    ensures exists order :: multiset(order) == multiset(CastEntries(cast, "successFrom", threshold))
                            && text == "<Request" + PrintAttributes(order) + " />"
  {
    hide Prints, PrintAttributes, DistinctKeys, EmplaceAll, CastEntries;
    var order := PrintedAround(text, ElementOf(Request(cast, threshold)), "", []);
    EntriesOfCast(cast, "successFrom", threshold);
    SameListing(order, CastEntries(cast, "successFrom", threshold));
    assert "<" + "Request" == "<Request";
    assert multiset(order) == multiset(CastEntries(cast, "successFrom", threshold))
           && text == "<Request" + PrintAttributes(order) + " />";
  }

  function Written(values: seq<uint32>): seq<string> {
    seq(|values|, i requires 0 <= i < |values| => ToString(values[i]))
  }

  predicate IsResponseText(text: string, order: AttributeList, values: seq<uint32>) {
    text == if values == [] then "<Response" + PrintAttributes(order) + " />"
      else "<Response" + PrintAttributes(order) + ">" + LeavesText("Val", Written(values)) + "</Response>"
  }

  lemma ResponseText(cast: Cast, count: Option<size_t>, text: string)
    requires Prints(text, ElementOf(Response(cast, count)))
    ensures exists order ::
      multiset(order) == multiset(CastEntries(cast, "successCount", count)) && IsResponseText(text, order, cast.values)
  {
    hide Prints, PrintAttributes, DistinctKeys, EmplaceAll, CastEntries, LeavesText, ToString;
    var order := PrintedAround(text, ElementOf(Response(cast, count)), "Val", Written(cast.values));
    EntriesOfCast(cast, "successCount", count);
    SameListing(order, CastEntries(cast, "successCount", count));
    assert "<" + "Response" == "<Response" && "</" + "Response" + ">" == "</Response>";
    assert multiset(order) == multiset(CastEntries(cast, "successCount", count))
           && IsResponseText(text, order, cast.values);
  }
}
