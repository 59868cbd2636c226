/** Trees without an attribute order, and all the texts they may be printed as. */
module XmlDocuments {
  import opened Text
  import opened XmlTags
  import opened XmlTree
  import opened XmlPieces
  import opened XmlRoundTrip
  import Entities

  // ----- printed trees of a given unordered tree -----

  predicate GoodMap(attrs: Attributes) {
    forall key | key in attrs :: GoodAttribute((key, attrs[key]))
  }

  /** `WellNamed` for a tree whose attributes are a map; documents may also repeat a key, trees may not. */
  predicate Readable(e: Element) {
    GoodName(e.name) && GoodMap(e.attrs) && forall k | 0 <= k < |e.children| :: Readable(e.children[k])
  }

  /** With distinct keys every printed attribute is an entry of the map. */
  lemma {:induction false} EmplacedEntries(found: Attributes, attrs: AttributeList)
    requires DistinctKeys(attrs) && forall k | 0 <= k < |attrs| :: attrs[k].0 !in found
    ensures forall key | key in found :: key in EmplaceAll(found, attrs) && EmplaceAll(found, attrs)[key] == found[key]
    ensures forall k | 0 <= k < |attrs| ::
      attrs[k].0 in EmplaceAll(found, attrs) && EmplaceAll(found, attrs)[attrs[k].0] == attrs[k].1
    decreases |attrs|
  {
    if attrs != [] {
      var next := Emplace(found, attrs[0].0, attrs[0].1);
      var rest := attrs[1..];
      assert forall k | 0 <= k < |rest| :: rest[k] == attrs[k + 1];
      EmplacedEntries(next, rest);
      forall k | 0 <= k < |attrs|
        ensures attrs[k].0 in EmplaceAll(found, attrs) && EmplaceAll(found, attrs)[attrs[k].0] == attrs[k].1
      {
        if k > 0 {
          assert attrs[k] == rest[k - 1];
        } else {
          assert attrs[0].0 in next;
        }
      }
    }
  }

  lemma {:induction false} ReadableIsWellNamed(e: OrderedElement)
    requires HasDistinctKeys(e) && Readable(Unordered(e))
    ensures WellNamed(e)
    decreases e, 1
  {
    EmplacedEntries(map[], e.attrs);
    var entries := EmplaceAll(map[], e.attrs);
    forall k | 0 <= k < |e.attrs|
      ensures GoodAttribute(e.attrs[k])
    {
      assert GoodAttribute((e.attrs[k].0, entries[e.attrs[k].0]));
    }
    ReadableChildren(e.children);
  }

  lemma {:induction false} ReadableChildren(es: seq<OrderedElement>)
    requires forall k | 0 <= k < |es| :: HasDistinctKeys(es[k])
    requires forall k | 0 <= k < |UnorderedAll(es)| :: Readable(UnorderedAll(es)[k])
    ensures forall k | 0 <= k < |es| :: WellNamed(es[k])
    decreases es, 0
  {
    if es != [] {
      hide Unordered, Readable, HasDistinctKeys, WellNamed;
      var all := UnorderedAll(es);
      assert all[0] == Unordered(es[0]) && all[1..] == UnorderedAll(es[1..]);
      assert forall k | 0 <= k < |UnorderedAll(es[1..])| :: UnorderedAll(es[1..])[k] == all[k + 1];
      ReadableIsWellNamed(es[0]);
      ReadableChildren(es[1..]);
      assert forall k | 1 <= k < |es| :: es[k] == es[1..][k - 1];
    }
  }

  // ----- no NUL gets into a printed tree -----

  predicate Clean(e: Element) {
    && NUL !in e.name && NUL !in e.content
    && (forall key | key in e.attrs :: NUL !in key && NUL !in e.attrs[key])
    && forall k | 0 <= k < |e.children| :: Clean(e.children[k])
  }

  lemma {:induction false} AttributesNulFree(attrs: AttributeList)
    requires forall k | 0 <= k < |attrs| :: NUL !in attrs[k].0 && NUL !in attrs[k].1
    ensures NUL !in PrintAttributes(attrs)
  {
    if attrs != [] {
      AttributesNulFree(attrs[1..]);
    }
  }

  lemma {:induction false} PrintNulFree(e: OrderedElement)
    requires HasDistinctKeys(e) && Clean(Unordered(e))
    ensures NUL !in Print(e)
    decreases e, 1
  {
    EmplacedEntries(map[], e.attrs);
    AttributesNulFree(e.attrs);
    assert NUL !in TagText(e.name, PrintAttributes(e.attrs), IsSingle(e));
    if !IsSingle(e) {
      Entities.EscapeShape(e.content);
      PrintAllNulFree(e.children);
      assert NUL !in ClosingTag(e.name);
    }
  }

  lemma {:induction false} PrintAllNulFree(es: seq<OrderedElement>)
    requires AllDistinctKeys(es) && forall k | 0 <= k < |UnorderedAll(es)| :: Clean(UnorderedAll(es)[k])
    ensures NUL !in PrintAll(es)
    decreases es, 0
  {
    if es != [] {
      hide Print, Unordered, Clean, HasDistinctKeys;
      var all := UnorderedAll(es);
      assert all[0] == Unordered(es[0]) && all[1..] == UnorderedAll(es[1..]);
      assert forall k | 0 <= k < |UnorderedAll(es[1..])| :: UnorderedAll(es[1..])[k] == all[k + 1];
      PrintNulFree(es[0]);
      PrintAllNulFree(es[1..]);
    }
  }

  /** Whatever order the attributes are printed in, a readable tree comes back as `Reread` says. */
  lemma ParseAnyOrder(e: Element, text: string, replace: bool)
    requires Prints(text, e) && Readable(e) && Clean(e) && !("?" <= e.name)
    ensures NUL !in text && CString(text) == text
    ensures Parse(text, replace) == Parsed(Reread(e, replace))
  {
    hide Parse, Reread, Print, CString, Readable, Clean, WellNamed, HasDistinctKeys;
    var t :| Unordered(t) == e && HasDistinctKeys(t) && text == Print(t);
    ReadableIsWellNamed(t);
    PrintNulFree(t);
    CStringWhole(text);
    ParsePrinted(t, replace);
  }

  /**
   Parsing undoes printing, for trees of every shape and depth and for every attribute order, exactly when
   no element has content that is blank but not empty.
   */
  lemma RoundTrip(e: Element, text: string)
    requires Prints(text, e) && Readable(e) && Clean(e) && !("?" <= e.name)
    ensures Parse(CString(text), true) == Parsed(e) <==> NoBlankContent(e)
  {
    hide Parse, Prints, CString, Readable, Clean, Reread;
    ParseAnyOrder(e, text, true);
    RereadIdentity(e);
  }

  /** The attribute order of the printer does not reach the reader. */
  lemma OrderDoesNotMatter(e: Element, text: string, other: string, replace: bool)
    requires Prints(text, e) && Prints(other, e) && Readable(e) && Clean(e) && !("?" <= e.name)
    ensures Parse(text, replace) == Parse(other, replace)
  {
    hide Parse, Prints, Readable, Clean, Reread;
    ParseAnyOrder(e, text, replace);
    ParseAnyOrder(e, other, replace);
  }
}
