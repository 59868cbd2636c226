/** The element tree, its printer and the stack machine that builds it from tokens. */
module XmlTree {
  import opened Text
  import opened XmlTags
  import opened XmlScan
  import Entities

  /** One element of a document; attributes are a mathematical map, the hash table order left out. */
  datatype Element = Element(name: string, content: string, attrs: Attributes, children: seq<Element>)

  type AttributeList = seq<(string, string)>

  /** An element whose attributes stand in the order in which the hash table hands them out. */
  datatype OrderedElement =
    OrderedElement(name: string, content: string, attrs: AttributeList, children: seq<OrderedElement>)

  predicate DistinctKeys(attrs: AttributeList) {
    forall i, j | 0 <= i < j < |attrs| :: attrs[i].0 != attrs[j].0
  }

  function EmplaceAll(found: Attributes, attrs: AttributeList): Attributes
    decreases |attrs|
  {
    if attrs == [] then found
    else EmplaceAll(Emplace(found, attrs[0].0, attrs[0].1), attrs[1..])
  }

  /** The tree without the attribute order. */
  function Unordered(e: OrderedElement): Element {
    Element(e.name, e.content, EmplaceAll(map[], e.attrs), UnorderedAll(e.children))
  }

  function UnorderedAll(es: seq<OrderedElement>): seq<Element> {
    if es == [] then [] else [Unordered(es[0])] + UnorderedAll(es[1..])
  }

  // ----- printing -----

  function PrintAttribute(attr: (string, string)): string {
    " " + attr.0 + "=\"" + attr.1 + "\""
  }

  function PrintAttributes(attrs: AttributeList): string {
    if attrs == [] then "" else PrintAttribute(attrs[0]) + PrintAttributes(attrs[1..])
  }

  /** An opening tag, or a whole element when `single`. */
  function TagText(name: string, attributes: string, single: bool): string {
    "<" + name + attributes + if single then " />" else ">"
  }

  function ClosingTag(name: string): string {
    "</" + name + ">"
  }

  predicate IsSingle(e: OrderedElement) {
    e.content == "" && e.children == []
  }

  function Print(e: OrderedElement): string {
    var tag := TagText(e.name, PrintAttributes(e.attrs), IsSingle(e));
    if IsSingle(e) then tag
    else tag + Entities.Escape(e.content) + PrintAll(e.children) + ClosingTag(e.name)
  }

  function PrintAll(es: seq<OrderedElement>): string {
    if es == [] then "" else Print(es[0]) + PrintAll(es[1..])
  }

  /** Some attribute order of a tree, picked entry by entry like an iteration over a hash table. */
  method IterationOrder(attrs: Attributes) returns (order: AttributeList)
    ensures DistinctKeys(order)
    ensures EmplaceAll(map[], order) == attrs
  {
    order := [];
    var left := attrs.Keys;
    while left != {}
      invariant left <= attrs.Keys
      invariant forall i | 0 <= i < |order| :: order[i].0 in attrs.Keys - left
      invariant DistinctKeys(order)
      invariant EmplaceAll(map[], order) == map k | k in attrs.Keys - left :: attrs[k]
      decreases left
    {
      var key :| key in left;
      EmplaceSnoc(map[], order, key, attrs[key]);
      order := order + [(key, attrs[key])];
      left := left - {key};
    }
  }

  lemma {:induction false} EmplaceSnoc(found: Attributes, attrs: AttributeList, key: string, value: string)
    ensures EmplaceAll(found, attrs + [(key, value)]) == Emplace(EmplaceAll(found, attrs), key, value)
    decreases |attrs|
  {
    if attrs == [] {
      assert ([] + [(key, value)])[1..] == [];
    } else {
      assert (attrs + [(key, value)])[1..] == attrs[1..] + [(key, value)];
      EmplaceSnoc(Emplace(found, attrs[0].0, attrs[0].1), attrs[1..], key, value);
    }
  }

  /** `out` lists the attributes in some order of the table. */
  ghost predicate PrintsAttributes(out: string, attrs: Attributes) {
    exists order :: DistinctKeys(order) && EmplaceAll(map[], order) == attrs && out == PrintAttributes(order)
  }

  /** `out` is the text of the tree for some attribute orders. */
  ghost predicate Prints(out: string, e: Element) {
    exists t :: Unordered(t) == e && HasDistinctKeys(t) && out == Print(t)
  }

  ghost predicate PrintsChildren(out: string, es: seq<Element>) {
    exists ts :: UnorderedAll(ts) == es && AllDistinctKeys(ts) && out == PrintAll(ts)
  }

  predicate AllDistinctKeys(ts: seq<OrderedElement>) {
    forall k | 0 <= k < |ts| :: HasDistinctKeys(ts[k])
  }

  method WriteAttributes(attrs: Attributes) returns (out: string)
    ensures PrintsAttributes(out, attrs)
  {
    var entries := IterationOrder(attrs);
    out := "";
    var i := 0;
    assert entries[0..] == entries;
    while i < |entries|
      invariant i <= |entries|
      invariant out + PrintAttributes(entries[i..]) == PrintAttributes(entries)
    {
      ghost var rest := entries[i..];
      assert rest[1..] == entries[i + 1..];
      ghost var item, tail := PrintAttribute(entries[i]), PrintAttributes(entries[i + 1..]);
      assert out + (item + tail) == out + item + tail;
      out := out + PrintAttribute(entries[i]);
      i := i + 1;
    }
  }

  /** The stream output operator: it writes the attributes in whatever order the table has. */
  method WriteElement(e: Element) returns (out: string)
    ensures Prints(out, e)
    decreases e, 1
  {
    hide *;
    var attributes := WriteAttributes(e.attrs);
    if e.content == "" && e.children == [] {
      SingleIsPrinted(e, attributes);
      return TagText(e.name, attributes, true);
    }
    out := TagText(e.name, attributes, false);
    var content := Entities.InsertEntityRef(e.content);
    out := out + content;
    var inner := WriteChildren(e);
    out := out + inner;
    out := out + ClosingTag(e.name);
    ElementIsPrinted(e, attributes, inner);
  }

  lemma SingleIsPrinted(e: Element, attributes: string)
    requires PrintsAttributes(attributes, e.attrs) && e.content == "" && e.children == []
    ensures Prints(TagText(e.name, attributes, true), e)
  {
    hide TagText, PrintAttributes, EmplaceAll, DistinctKeys;
    var order :| DistinctKeys(order) && EmplaceAll(map[], order) == e.attrs && attributes == PrintAttributes(order);
    var t := OrderedElement(e.name, e.content, order, []);
    assert IsSingle(t);
    assert Print(t) == TagText(t.name, PrintAttributes(t.attrs), true);
    assert UnorderedAll([]) == [];
    assert Unordered(t) == e;
    assert HasDistinctKeys(t);
  }

  lemma ElementIsPrinted(e: Element, attributes: string, inner: string)
    requires PrintsAttributes(attributes, e.attrs) && PrintsChildren(inner, e.children)
    requires e.content != "" || e.children != []
    ensures Prints(TagText(e.name, attributes, false) + Entities.Escape(e.content) + inner + ClosingTag(e.name), e)
  {
    hide PrintAttributes, TagText, ClosingTag, Entities.Escape;
    var order :| DistinctKeys(order) && EmplaceAll(map[], order) == e.attrs && attributes == PrintAttributes(order);
    var ts :| UnorderedAll(ts) == e.children && AllDistinctKeys(ts) && inner == PrintAll(ts);
    var t := OrderedElement(e.name, e.content, order, ts);
    assert Unordered(t) == e;
    assert HasDistinctKeys(t);
    assert TagText(e.name, attributes, false) + Entities.Escape(e.content) + inner + ClosingTag(e.name) == Print(t);
  }

  method WriteChildren(e: Element) returns (out: string)
    ensures PrintsChildren(out, e.children)
    decreases e, 0
  {
    hide *;
    out := "";
    var i := 0;
    NoChildren();
    assert e.children[..0] == [];
    while i < |e.children|
      invariant i <= |e.children| && PrintsChildren(out, e.children[..i])
    {
      var text := WriteElement(e.children[i]);
      OneMoreChild(out, e.children[..i], text, e.children[i]);
      assert e.children[..i + 1] == e.children[..i] + [e.children[i]];
      out := out + text;
      i := i + 1;
    }
    assert e.children[..i] == e.children;
  }

  lemma NoChildren()
    ensures PrintsChildren("", [])
  {
    assert UnorderedAll([]) == [] && AllDistinctKeys([]) && "" == PrintAll([]);
  }

  lemma OneMoreChild(out: string, es: seq<Element>, text: string, e: Element)
    requires PrintsChildren(out, es) && Prints(text, e)
    ensures PrintsChildren(out + text, es + [e])
  {
    hide Print, PrintAll, Unordered, UnorderedAll, HasDistinctKeys, AllDistinctKeys;
    var ts :| UnorderedAll(ts) == es && AllDistinctKeys(ts) && out == PrintAll(ts);
    var t :| Unordered(t) == e && HasDistinctKeys(t) && text == Print(t);
    ListSnoc(ts, t);
    DistinctSnoc(ts, t);
    assert UnorderedAll(ts + [t]) == es + [e] && AllDistinctKeys(ts + [t]) && out + text == PrintAll(ts + [t]);
  }

  lemma DistinctSnoc(ts: seq<OrderedElement>, t: OrderedElement)
    requires AllDistinctKeys(ts) && HasDistinctKeys(t)
    ensures AllDistinctKeys(ts + [t])
  {
    hide HasDistinctKeys;
  }

  lemma {:induction false} ListSnoc(es: seq<OrderedElement>, e: OrderedElement)
    ensures UnorderedAll(es + [e]) == UnorderedAll(es) + [Unordered(e)]
    ensures PrintAll(es + [e]) == PrintAll(es) + Print(e)
  {
    if es == [] {
      assert ([] + [e])[1..] == [];
    } else {
      assert (es + [e])[1..] == es[1..] + [e];
      ListSnoc(es[1..], e);
    }
  }

  predicate HasDistinctKeys(e: OrderedElement) {
    DistinctKeys(e.attrs) && forall k | 0 <= k < |e.children| :: HasDistinctKeys(e.children[k])
  }

  // ----- building -----

  /** The stack of open elements, root first. Finished: the root was popped. Undefined: see `AttributesFrom`. */
  datatype Build = Running(stack: seq<Element>) | Finished(root: Element) | Failed | Undefined

  /** Removes the innermost open element and hands it to its parent. */
  function Pop(stack: seq<Element>): Build
    requires stack != []
  {
    var n := |stack|;
    if n == 1 then Finished(stack[0])
    else Running(stack[..n - 2] + [AddChild(stack[n - 2], stack[n - 1])])
  }

  function AddChild(parent: Element, child: Element): Element {
    parent.(children := parent.children + [child])
  }

  function AddContent(e: Element, text: string, replace: bool): Element {
    e.(content := if replace then Entities.Decode(e.content + text) else e.content + text)
  }

  function WithTop(stack: seq<Element>, top: Element): Build
    requires stack != []
  {
    Running(stack[..|stack| - 1] + [top])
  }

  function Step(b: Build, text: string, from: nat, to: nat, replace: bool): Build
    requires b.Running? && b.stack != []
  {
    var top := b.stack[|b.stack| - 1];
    var what := DetermineToken(text, from, to);
    if what == Error then Failed
    else if what == Comment then b
    else if what == Content then WithTop(b.stack, AddContent(top, Slice(text, from, to), replace))
    else if what == Close then Pop(b.stack)
    else
      var attrs := AttributesOf(text, from, to);
      if attrs.None? then Undefined
      else
        var grown := b.stack + [Element(ExtractName(text, from, to), "", attrs.value, [])];
        if what == OpenClose then Pop(grown) else Running(grown)
  }

  predicate IsRunning(b: Build) {
    b.Running? ==> b.stack != []
  }

  function Run(b: Build, text: string, marks: seq<nat>, replace: bool): Build
    requires IsRunning(b)
    decreases |marks|
  {
    if |marks| <= 1 || !b.Running? then b
    else Run(Step(b, text, marks[0], marks[1], replace), text, marks[1..], replace)
  }

  /** The root of a stack, with every element still open attached to its parent. */
  function RootOf(stack: seq<Element>): Element
    requires stack != []
    decreases |stack|
  {
    var n := |stack|;
    if n == 1 then stack[0]
    else RootOf(stack[..n - 2] + [AddChild(stack[n - 2], stack[n - 1])])
  }

  /** The first token becomes the root whatever it is; what follows the end of the root is ignored. */
  function BuildTree(text: string, marks: seq<nat>, replace: bool): Build
    requires |marks| >= 2
  {
    var attrs := AttributesOf(text, marks[0], marks[1]);
    if attrs.None? then Undefined
    else
      var root := Element(ExtractName(text, marks[0], marks[1]), "", attrs.value, []);
      match Run(Running([root]), text, marks[1..], replace)
      case Running(stack) => if stack == [] then Failed else Finished(RootOf(stack))
      case b => b
  }

  method BuildElementTree(text: string, marks: seq<nat>, replace: bool) returns (r: Build)
    requires |marks| >= 2
    ensures r == BuildTree(text, marks, replace)
  {
    hide ExtractName, AttributesOf, DetermineToken, Slice, RootOf;
    var attrs := ExtractAttributes(text, marks[0], marks[1]);
    if attrs.None? {
      return Undefined;
    }
    var stack := [Element(ExtractName(text, marks[0], marks[1]), "", attrs.value, [])];
    ghost var start := Running(stack);
    var left := 1;
    while left + 1 < |marks|
      invariant 1 <= left < |marks|
      invariant stack != []
      invariant Run(start, text, marks[1..], replace) == Run(Running(stack), text, marks[left..], replace)
    {
      assert marks[left..][1..] == marks[left + 1..];
      var from, to := marks[left], marks[left + 1];
      var top := stack[|stack| - 1];
      var what := DetermineToken(text, from, to);
      if what == Open || what == OpenClose {
        var found := ExtractAttributes(text, from, to);
        if found.None? {
          return Undefined;
        }
        stack := stack + [Element(ExtractName(text, from, to), "", found.value, [])];
      }
      if what == Close || what == OpenClose {
        var popped := Pop(stack);
        if popped.Finished? {
          return popped;
        }
        stack := popped.stack;
      } else if what == Content {
        var content := top.content + Slice(text, from, to);
        if replace {
          content := Entities.SubstituteEntityRef(content);
        }
        stack := stack[..|stack| - 1] + [top.(content := content)];
      } else if what == Error {
        return Failed;
      }
      left := left + 1;
    }
    return Finished(RootOf(stack));
  }

  // ----- documents -----

  /**
   What the constructor of a document does with a text. `OutOfBounds` stands for inputs on which the source
   reads behind the end of the token list or of a token.
   */
  datatype Outcome = Parsed(root: Element) | MalformedBeginning | MalformedXml | OutOfBounds

  /** The values of a declaration; what is not declared is empty. */
  datatype Info = Info(version: string, encoding: string, standalone: string)

  const DECLARATION_KEYS := ["version", "encoding", "standalone"]
  const NO_INFO := Info("", "", "")

  function ValueOf(attrs: Attributes, key: string): string {
    if key in attrs then attrs[key] else ""
  }

  function InfoOf(attrs: Attributes): Info {
    Info(ValueOf(attrs, "version"), ValueOf(attrs, "encoding"), ValueOf(attrs, "standalone"))
  }

  /** What the document says about itself in front of its root. */
  function DeclarationOf(text: string): Info {
    var marks := Cleaned(text);
    if marks.None? || |marks.value| < 2 || At(text, marks.value[0] + 1) != '?' then NO_INFO
    else
      var declared := AttributesOf(text, marks.value[0], marks.value[1]);
      if declared.None? then NO_INFO else InfoOf(declared.value)
  }

  function Cleaned(text: string): Option<seq<nat>> {
    DropLeadingComments(text, Collapse(text, Gapless(text, RawMarks(text, 0))))
  }

  /** Removes the declaration and the comments behind it. */
  function SkipDeclaration(text: string, marks: seq<nat>): Option<seq<nat>>
    requires |marks| >= 2
  {
    if AttributesOf(text, marks[0], marks[1]).None? then None else DropLeadingComments(text, marks[1..])
  }

  function Finish(b: Build): Outcome {
    match b
    case Finished(root) => Parsed(root)
    case Undefined => OutOfBounds
    case _ => MalformedXml
  }

  function Parse(text: string, replace: bool): Outcome {
    var marks := Cleaned(text);
    if marks.None? || |marks.value| < 2 then OutOfBounds
    else if At(text, marks.value[0]) != '<' then MalformedBeginning
    else if At(text, marks.value[0] + 1) == '?' then
      var rest := SkipDeclaration(text, marks.value);
      if rest.None? || |rest.value| < 2 then OutOfBounds else Finish(BuildTree(text, rest.value, replace))
    else Finish(BuildTree(text, marks.value, replace))
  }

  method ReadInfo(declaration: Attributes) returns (info: Info)
    ensures info == InfoOf(declaration)
  {
    var data := ["", "", ""];
    for i := 0 to 3
      invariant |data| == 3
      invariant forall k | 0 <= k < 3 :: data[k] == if k < i then ValueOf(declaration, DECLARATION_KEYS[k]) else ""
    {
      if DECLARATION_KEYS[i] in declaration {
        data := data[i := declaration[DECLARATION_KEYS[i]]];
      }
    }
    info := Info(data[0], data[1], data[2]);
  }

  /** The constructor of `Document`; `text` is what stands before the terminating NUL. */
  method ParseDocument(text: string, replace: bool) returns (r: Outcome, info: Info)
    requires text != "" && NUL !in text
    ensures r == Parse(text, replace)
    ensures r.Parsed? ==> info == DeclarationOf(text)
  {
    info := NO_INFO;
    hide RawMarks, Gapless, Collapse, DropLeadingComments, BuildTree, AttributesOf;
    var tokens := new TokenList.Tokenize(text);
    tokens.RemoveGaps();
    tokens.RemoveInsideComments();
    var ok := tokens.RemoveLeadingComments();
    if !ok {
      return OutOfBounds, info;
    }
    var first := tokens.marks[0];
    if At(text, first) != '<' {
      return MalformedBeginning, info;
    }
    if At(text, first + 1) == '?' {
      var declaration := ExtractAttributes(text, first, tokens.marks[1]);
      if declaration.None? {
        return OutOfBounds, info;
      }
      info := ReadInfo(declaration.value);
      tokens.PopFront();
      ok := tokens.RemoveLeadingComments();
      if !ok {
        return OutOfBounds, info;
      }
    }
    var built := BuildElementTree(text, tokens.marks, replace);
    r := Finish(built);
  }
}
