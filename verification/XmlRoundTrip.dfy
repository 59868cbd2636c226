/** Parsing undoes printing, whatever the attribute order and whatever layout stands between the tags. */
module XmlRoundTrip {
  import opened Text
  import opened XmlTags
  import opened XmlScan
  import opened XmlTree
  import opened XmlPieces
  import opened XmlReading
  import Entities

  // ----- the tree that comes back -----

  /** Blank content is lost; other content comes back as it was, or still escaped without replacement. */
  function RereadContent(content: string, replace: bool): string {
    if AllSpace(content) then "" else if replace then content else Entities.Escape(content)
  }

  function Reread(e: Element, replace: bool): Element {
    Element(e.name, RereadContent(e.content, replace), e.attrs, RereadAll(e.children, replace))
  }

  function RereadAll(es: seq<Element>, replace: bool): seq<Element> {
    if es == [] then [] else [Reread(es[0], replace)] + RereadAll(es[1..], replace)
  }

  /** Names and attributes the parser can read back. */
  predicate WellNamed(e: OrderedElement) {
    GoodName(e.name) && GoodAttributes(e.attrs) && forall k | 0 <= k < |e.children| :: WellNamed(e.children[k])
  }

  predicate AllWellNamed(es: seq<OrderedElement>) {
    forall k | 0 <= k < |es| :: WellNamed(es[k])
  }

  /** Every content is empty or holds a character that is not white space. */
  predicate NoBlankContent(e: Element) {
    (AllSpace(e.content) ==> e.content == "") && forall k | 0 <= k < |e.children| :: NoBlankContent(e.children[k])
  }

  predicate NoneBlank(es: seq<Element>) {
    forall k | 0 <= k < |es| :: NoBlankContent(es[k])
  }

  // ----- the pieces of a printed tree -----

  /** The piece a run of loose text makes; white space is layout to the parser wherever it stands. */
  function LoosePieces(text: string): seq<Piece> {
    if text == "" then [] else if AllSpace(text) then [Space(text)] else [Chars(text)]
  }

  function ContentPieces(content: string): seq<Piece> {
    LoosePieces(Entities.Escape(content))
  }

  function BodyPieces(e: OrderedElement): seq<Piece>
    decreases e, 0
  {
    ContentPieces(e.content) + PiecesOfAll(e.children) + [CloseTag(e.name)]
  }

  function PiecesOf(e: OrderedElement): seq<Piece>
    decreases e, 1
  {
    [OpenTag(e.name, e.attrs, IsSingle(e))] + if IsSingle(e) then [] else BodyPieces(e)
  }

  function PiecesOfAll(es: seq<OrderedElement>): seq<Piece>
    decreases es
  {
    if es == [] then [] else PiecesOf(es[0]) + PiecesOfAll(es[1..])
  }

  lemma {:induction false} RenderConcat(xs: seq<Piece>, ys: seq<Piece>)
    ensures RenderAll(xs + ys) == RenderAll(xs) + RenderAll(ys)
  {
    hide Render;
    if xs == [] {
      assert xs + ys == ys;
    } else {
      assert (xs + ys)[1..] == xs[1..] + ys;
      RenderConcat(xs[1..], ys);
      var a, b, c := Render(xs[0]), RenderAll(xs[1..]), RenderAll(ys);
      assert a + (b + c) == (a + b) + c;
    }
  }

  lemma RenderOne(p: Piece)
    ensures RenderAll([p]) == Render(p)
  {
    hide Render;
    assert [p][1..] == [];
  }

  lemma ContentRendered(content: string)
    ensures RenderAll(ContentPieces(content)) == Entities.Escape(content)
  {
    Entities.EscapeShape(content);
    if content != "" {
      RenderOne(ContentPieces(content)[0]);
    }
  }

  /** The printer writes the pieces of the tree. */
  lemma {:induction false} PrintIsRendered(e: OrderedElement)
    ensures Print(e) == RenderAll(PiecesOf(e))
    decreases e, 1
  {
    var tag := OpenTag(e.name, e.attrs, IsSingle(e));
    RenderOne(tag);
    if IsSingle(e) {
      assert PiecesOf(e) == [tag];
    } else {
      var content, inner, close := ContentPieces(e.content), PiecesOfAll(e.children), [CloseTag(e.name)];
      RenderConcat([tag], BodyPieces(e));
      RenderConcat(content + inner, close);
      RenderConcat(content, inner);
      ContentRendered(e.content);
      PrintAllIsRendered(e.children);
      RenderOne(CloseTag(e.name));
      ConcatFour(Render(tag), Entities.Escape(e.content), PrintAll(e.children), ClosingTag(e.name));
    }
  }

  lemma ConcatFour(a: string, b: string, c: string, d: string)
    ensures a + b + c + d == a + ((b + c) + d)
  {
  }

  lemma {:induction false} PrintAllIsRendered(es: seq<OrderedElement>)
    ensures PrintAll(es) == RenderAll(PiecesOfAll(es))
    decreases es, 0
  {
    if es != [] {
      PrintIsRendered(es[0]);
      PrintAllIsRendered(es[1..]);
      RenderConcat(PiecesOf(es[0]), PiecesOfAll(es[1..]));
    }
  }

  // ----- the pieces are valid -----

  /** Begins and ends with a tag, so that it may stand anywhere. */
  predicate Tagged(ps: seq<Piece>) {
    ValidPieces(ps) && (ps != [] ==> !IsLoose(ps[0]) && !IsLoose(ps[|ps| - 1]))
  }

  lemma TaggedConcat(xs: seq<Piece>, ys: seq<Piece>)
    requires Tagged(xs) && Tagged(ys)
    ensures Tagged(xs + ys)
  {
    hide ValidPiece;
    var zs := xs + ys;
    forall k | 0 <= k < |zs|
      ensures ValidPiece(zs[k])
    {
      assert zs[k] == if k < |xs| then xs[k] else ys[k - |xs|];
    }
    forall k | 0 <= k < |zs| - 1
      ensures !(IsLoose(zs[k]) && IsLoose(zs[k + 1]))
    {
      if k + 1 < |xs| {
        assert zs[k] == xs[k] && zs[k + 1] == xs[k + 1];
      } else if k >= |xs| {
        assert zs[k] == ys[k - |xs|] && zs[k + 1] == ys[(k - |xs|) + 1];
      } else {
        assert zs[k] == xs[|xs| - 1];
      }
    }
  }

  lemma ContentPieceValid(content: string)
    requires content != ""
    ensures |ContentPieces(content)| == 1 && ValidPiece(ContentPieces(content)[0])
  {
    Entities.EscapeShape(content);
  }

  /** An opening tag, one piece of loose text and tagged pieces behind it. */
  lemma TaggedAround(tag: Piece, loose: Piece, ys: seq<Piece>)
    requires ValidPiece(tag) && !IsUnended(tag) && ValidPiece(loose) && Tagged(ys) && ys != []
    ensures Tagged([tag] + ([loose] + ys))
  {
    hide ValidPiece;
    var zs := [tag] + ([loose] + ys);
    assert forall k | 2 <= k < |zs| :: zs[k] == ys[k - 2];
    forall k | 2 <= k < |zs| - 1
      ensures !(IsLoose(zs[k]) && IsLoose(zs[k + 1]))
    {
      assert zs[k] == ys[k - 2] && zs[k + 1] == ys[(k - 2) + 1];
    }
    assert zs[|zs| - 1] == ys[|ys| - 1];
  }

  lemma {:induction false} PiecesTagged(e: OrderedElement)
    requires WellNamed(e)
    ensures Tagged(PiecesOf(e))
    decreases e, 1
  {
    TagsTagged(e);
    if !IsSingle(e) {
      AllPiecesTagged(e.children);
      BodyTagged(e);
    }
  }

  lemma TagsTagged(e: OrderedElement)
    requires WellNamed(e)
    ensures AllWellNamed(e.children)
    ensures IsSingle(e) ==> Tagged(PiecesOf(e))
    ensures ValidPiece(OpenTag(e.name, e.attrs, IsSingle(e))) && ValidPiece(CloseTag(e.name))
  {
  }

  lemma BodyTagged(e: OrderedElement)
    requires !IsSingle(e) && Tagged(PiecesOfAll(e.children))
    requires ValidPiece(OpenTag(e.name, e.attrs, false)) && ValidPiece(CloseTag(e.name))
    ensures Tagged(PiecesOf(e))
  {
    hide ValidPiece, ContentPieces, PiecesOf, PiecesOfAll, IsSingle, Tagged;
    var tag, close := OpenTag(e.name, e.attrs, false), CloseTag(e.name);
    var inner, content := PiecesOfAll(e.children), ContentPieces(e.content);
    OneTagged(tag);
    OneTagged(close);
    TaggedConcat(inner, [close]);
    BodyParts(e);
    if e.content == "" {
      TaggedConcat([tag], inner + [close]);
      assert [] + (inner + [close]) == inner + [close];
    } else {
      ContentPieceValid(e.content);
      TaggedAround(tag, content[0], inner + [close]);
      assert content == [content[0]];
    }
  }

  lemma OneTagged(p: Piece)
    requires ValidPiece(p) && !IsLoose(p)
    ensures Tagged([p])
  {
  }

  lemma BodyParts(e: OrderedElement)
    requires !IsSingle(e)
    ensures var tag, close := OpenTag(e.name, e.attrs, false), CloseTag(e.name);
      PiecesOf(e) == [tag] + (ContentPieces(e.content) + (PiecesOfAll(e.children) + [close]))
    ensures e.content == "" ==> ContentPieces(e.content) == []
  {
    hide PiecesOfAll;
    assert ContentPieces(e.content) + PiecesOfAll(e.children) + [CloseTag(e.name)]
        == ContentPieces(e.content) + (PiecesOfAll(e.children) + [CloseTag(e.name)]);
    Entities.EscapeShape(e.content);
  }

  lemma {:induction false} AllPiecesTagged(es: seq<OrderedElement>)
    requires AllWellNamed(es)
    ensures Tagged(PiecesOfAll(es))
    decreases es, 0
  {
    if es != [] {
      PiecesTagged(es[0]);
      AllPiecesTagged(es[1..]);
      TaggedConcat(PiecesOf(es[0]), PiecesOfAll(es[1..]));
    }
  }

  // ----- the stack machine rebuilds the tree -----

  /** What the pieces of the content do to the element on top of the stack. */
  lemma RunContent(below: seq<Element>, top: Element, content: string, replace: bool)
    requires top.content == ""
    ensures RunPieces(Running(below + [top]), ContentPieces(content), replace)
         == Running(below + [top.(content := RereadContent(content, replace))])
  {
    var stack := below + [top];
    assert stack[..|stack| - 1] == below;
    Entities.EscapeShape(content);
    if content == "" {
      assert top.(content := "") == top;
    } else {
      var piece := ContentPieces(content)[0];
      assert ContentPieces(content)[1..] == [];
      var next := StepPiece(Running(stack), piece, replace);
      assert RunPieces(Running(stack), ContentPieces(content), replace) == RunPieces(next, [], replace);
      if AllSpace(content) {
        assert top.(content := "") == top;
      } else {
        Entities.DecodeEscape(content);
        assert top.content + Entities.Escape(content) == Entities.Escape(content);
      }
    }
  }

  /** The pieces behind an opening tag complete the element and pop it. */
  lemma {:induction false} RunBody(below: seq<Element>, e: OrderedElement, replace: bool)
    ensures IsRunning(Pop(below + [Reread(Unordered(e), replace)]))
    ensures RunPieces(Running(below + [Element(e.name, "", EmplaceAll(map[], e.attrs), [])]), BodyPieces(e), replace)
         == Pop(below + [Reread(Unordered(e), replace)])
    decreases e, 0
  {
    var empty := Element(e.name, "", EmplaceAll(map[], e.attrs), []);
    var filled := empty.(content := RereadContent(e.content, replace));
    var content, inner, close := ContentPieces(e.content), PiecesOfAll(e.children), [CloseTag(e.name)];
    RunContent(below, empty, e.content, replace);
    RunChildren(below, filled, e.children, replace);
    var full := filled.(children := filled.children + RereadAll(UnorderedAll(e.children), replace));
    assert full == Reread(Unordered(e), replace);
    RunConcat(Running(below + [empty]), content + inner, close, replace);
    RunConcat(Running(below + [empty]), content, inner, replace);
    RunClose(below + [full], e.name, replace);
  }

  lemma RunClose(stack: seq<Element>, name: string, replace: bool)
    requires stack != []
    ensures IsRunning(Pop(stack))
    ensures RunPieces(Running(stack), [CloseTag(name)], replace) == Pop(stack)
  {
    assert [CloseTag(name)][1..] == [];
    assert RunPieces(Pop(stack), [], replace) == Pop(stack);
  }

  lemma PopOnto(below: seq<Element>, top: Element, child: Element)
    ensures Pop(below + [top] + [child]) == Running(below + [AddChild(top, child)])
  {
    var stack := below + [top] + [child];
    assert stack[..|stack| - 2] == below;
  }

  /** The pieces of a list of elements append them to the element on top of the stack. */
  lemma {:induction false} RunChildren(below: seq<Element>, top: Element, es: seq<OrderedElement>, replace: bool)
    ensures RunPieces(Running(below + [top]), PiecesOfAll(es), replace)
         == Running(below + [top.(children := top.children + RereadAll(UnorderedAll(es), replace))])
    decreases es, 1
  {
    hide Reread, Unordered, UnorderedAll, RereadAll, PiecesOf;
    if es == [] {
      NoElements(replace);
      assert top.(children := top.children + []) == top;
    } else {
      RunElement(below, top, es[0], replace);
      var child := Reread(Unordered(es[0]), replace);
      var rest := RereadAll(UnorderedAll(es[1..]), replace);
      RunConcat(Running(below + [top]), PiecesOf(es[0]), PiecesOfAll(es[1..]), replace);
      RunChildren(below, AddChild(top, child), es[1..], replace);
      UnorderedCons(es, replace);
      assert top.children + [child] + rest == top.children + ([child] + rest);
    }
  }

  lemma NoElements(replace: bool)
    ensures RereadAll(UnorderedAll([]), replace) == []
  {
  }

  lemma UnorderedCons(es: seq<OrderedElement>, replace: bool)
    requires es != []
    ensures RereadAll(UnorderedAll(es), replace)
         == [Reread(Unordered(es[0]), replace)] + RereadAll(UnorderedAll(es[1..]), replace)
  {
    hide Reread, Unordered;
    assert UnorderedAll(es)[1..] == UnorderedAll(es[1..]);
  }

  lemma {:induction false} RunElement(below: seq<Element>, top: Element, e: OrderedElement, replace: bool)
    ensures RunPieces(Running(below + [top]), PiecesOf(e), replace)
         == Running(below + [AddChild(top, Reread(Unordered(e), replace))])
    decreases e, 1
  {
    var tag := OpenTag(e.name, e.attrs, IsSingle(e));
    var empty := Element(e.name, "", EmplaceAll(map[], e.attrs), []);
    var start := Running(below + [top]);
    PopOnto(below, top, Reread(Unordered(e), replace));
    if IsSingle(e) {
      assert PiecesOf(e) == [tag];
      assert Reread(Unordered(e), replace) == empty;
      assert [tag][1..] == [];
      assert RunPieces(StepPiece(start, tag, replace), [], replace) == StepPiece(start, tag, replace);
    } else {
      RunBody(below + [top], e, replace);
      assert PiecesOf(e)[1..] == BodyPieces(e);
      assert StepPiece(start, tag, replace) == Running(below + [top] + [empty]);
    }
  }

  // ----- whole documents -----

  lemma NoteIsDropped(text: string, p: nat, ps: seq<Piece>)
    requires ps != [] && ps[0].Note? && ValidPieces(ps) && PiecesAt(text, p, ps)
    ensures DropLeadingComments(text, Starts(ps, p))
         == DropLeadingComments(text, Starts(ps[1..], p + |Render(ps[0])|))
  {
    hide DetermineToken, Render, StandsAt, ValidPieces, ValidPiece, Blank;
    var q := p + |Render(ps[0])|;
    ValidTail(ps);
    PiecesInside(text, p, ps);
    StartsHead(text, q, ps[1..]);
    var rest := Starts(ps[1..], q);
    ReadKind(text, p, rest[0], ps[0]);
    assert ([p] + rest)[1..] == rest;
  }

  /** White space and comments in front of the root are passed over. */
  lemma {:induction false} LeadingLayout(text: string, p: nat, ps: seq<Piece>) returns (q: nat, rest: seq<Piece>)
    requires p <= |text| && OnMark(text, p) && ValidPieces(ps) && PiecesAt(text, p, ps)
    requires Essence(ps) != []
    ensures q <= |text| && rest != [] && ValidPieces(rest) && PiecesAt(text, q, rest)
    ensures !rest[0].Space? && !rest[0].Note? && Essence(rest) == Essence(ps)
    ensures DropLeadingComments(text, Starts(ps, p)) == DropLeadingComments(text, Starts(rest, q))
    decreases |ps|
  {
    hide *;
    EssenceOfNothing(ps);
    if ps[0].Space? || ps[0].Note? {
      LeadingPiece(text, p, ps);
      q, rest := LeadingLayout(text, p + |Render(ps[0])|, ps[1..]);
    } else {
      q, rest := p, ps;
    }
  }

  lemma EssenceOfNothing(ps: seq<Piece>)
    ensures Essence(ps) != [] ==> ps != []
  {
  }

  lemma LeadingPiece(text: string, p: nat, ps: seq<Piece>)
    requires p <= |text| && OnMark(text, p) && ValidPieces(ps) && PiecesAt(text, p, ps)
    requires ps != [] && (ps[0].Space? || ps[0].Note?)
    ensures var next := p + |Render(ps[0])|;
      && next <= |text| && OnMark(text, next) && ValidPieces(ps[1..]) && PiecesAt(text, next, ps[1..])
      && DropLeadingComments(text, Starts(ps, p)) == DropLeadingComments(text, Starts(ps[1..], next))
    ensures Essence(ps) == Essence(ps[1..])
  {
    hide DropLeadingComments, ValidPieces, ValidPiece, StandsAt, Render, OnMark;
    NextOnMark(text, p, ps);
    ValidTail(ps);
    PiecesInside(text, p, ps);
    if ps[0].Note? {
      NoteIsDropped(text, p, ps);
    }
  }

  /** The tag of the root, read as a token and as the root of the tree. */
  lemma RootTag(text: string, q: nat, rest: seq<Piece>)
    requires ValidPieces(rest) && PiecesAt(text, q, rest)
    requires rest != [] && Canonical(rest[0]).OpenTag? && !("?" <= Canonical(rest[0]).name)
    ensures var marks := Starts(rest, q);
      && |marks| >= 2 && marks[0] == q && marks[1..] == Starts(rest[1..], q + |Render(rest[0])|)
      && DropLeadingComments(text, marks) == Some(marks)
      && At(text, q) == '<' && At(text, q + 1) != '?'
      && ExtractName(text, q, marks[1]) == Canonical(rest[0]).name
      && AttributesOf(text, q, marks[1]) == Some(EmplaceAll(map[], Canonical(rest[0]).attrs))
  {
    hide ValidPieces, ValidPiece, StandsAt, Render, DetermineToken, ExtractName, AttributesOf, Blank, EmplaceAll, At;
    var next := q + |Render(rest[0])|;
    ValidTail(rest);
    PiecesInside(text, q, rest);
    StartsHead(text, next, rest[1..]);
    var tail := Starts(rest[1..], next);
    assert Starts(rest, q) == [q] + tail;
    ReadKind(text, q, tail[0], rest[0]);
    ReadTag(text, q, tail[0], rest[0]);
    LooseIsSame(rest[0]);
    RootBeginning(text, q, Loose(rest[0]));
  }

  lemma RootBeginning(text: string, q: nat, piece: Piece)
    requires piece.LooseTag? && ValidPiece(piece) && !("?" <= piece.name) && StandsAt(text, q, Render(piece))
    ensures At(text, q) == '<' && At(text, q + 1) != '?'
  {
    var s := Render(piece);
    LoosePrefix(piece);
    assert text[q + 0] == s[0] && text[q + 1] == s[1];
    if piece.name != "" {
      assert s[1 + 0] == piece.name[0];
    }
  }

  /** The outcome of a document whose pieces leave the stack machine in state `b`. */
  function OutcomeOf(b: Build): Outcome {
    match b
    case Running(stack) => if stack == [] then MalformedXml else Parsed(RootOf(stack))
    case Finished(root) => Parsed(root)
    case Undefined => OutOfBounds
    case Failed => MalformedXml
  }

  function RootElement(tag: Piece): Element
    requires tag.OpenTag?
  {
    Element(tag.name, "", EmplaceAll(map[], tag.attrs), [])
  }

  lemma RootIsOpen(tag: Piece)
    requires tag.OpenTag?
    ensures IsRunning(Running([RootElement(tag)]))
  {
  }

  /**
   Any document put together from valid pieces, with an opening tag as its first piece that is not layout,
   parses to what the stack machine makes of its tags and character data.
   */
  lemma ParseOfPieces(ps: seq<Piece>, tag: Piece, inner: seq<Piece>, replace: bool)
    requires tag.OpenTag? && !("?" <= tag.name)
    requires ValidPieces(ps) && Essence(ps) == [tag] + inner
    ensures Parse(RenderAll(ps), replace) == OutcomeOf(RunPieces(Running([RootElement(tag)]), inner, replace))
  {
    hide Starts, RunPieces, ValidPieces, ValidPiece, Essence, Render, StandsAt, BuildTree, RenderAll, PiecesAt,
      Collapse, Tidy, DropLeadingComments, IsMark, RootElement, OutcomeOf, Parse;
    var text := RenderAll(ps);
    assert text[0..] == text;
    AtStart(text);
    RenderedPiecesStand(text, 0, ps);
    MarksOfPieces(text, 0, ps);
    var q, rest := LeadingLayout(text, 0, ps);
    EssenceCons(rest, tag, inner);
    RootTag(text, q, rest);
    BuildPieces(text, q, rest, inner, replace);
    CleanedIs(text);
    ParseIs(text, Starts(rest, q), RunPieces(Running([RootElement(tag)]), inner, replace), replace);
  }

  lemma ParseIs(text: string, marks: seq<nat>, b: Build, replace: bool)
    requires Cleaned(text) == Some(marks) && |marks| >= 2
    requires At(text, marks[0]) == '<' && At(text, marks[0] + 1) != '?'
    requires Finish(BuildTree(text, marks, replace)) == OutcomeOf(b)
    ensures Parse(text, replace) == OutcomeOf(b)
  {
    hide BuildTree, Cleaned, OutcomeOf;
  }

  lemma BuildPieces(text: string, q: nat, rest: seq<Piece>, inner: seq<Piece>, replace: bool)
    requires ValidPieces(rest) && PiecesAt(text, q, rest)
    requires rest != [] && Canonical(rest[0]).OpenTag? && !("?" <= Canonical(rest[0]).name)
    requires Essence(rest[1..]) == inner
    ensures |Starts(rest, q)| >= 2
    ensures Finish(BuildTree(text, Starts(rest, q), replace))
         == OutcomeOf(RunPieces(Running([RootElement(Canonical(rest[0]))]), inner, replace))
  {
    hide Starts, Run, RunPieces, DropLeadingComments, EmplaceAll, ExtractName, AttributesOf,
      ValidPieces, ValidPiece, Essence, Render, StandsAt, BuildTree, RootOf;
    RootTag(text, q, rest);
    PiecesInside(text, q, rest);
    ValidTail(rest);
    var root := RootElement(Canonical(rest[0]));
    RunOfPieces(Running([root]), text, q + |Render(rest[0])|, rest[1..], replace);
    LayoutIsNothing(Running([root]), rest[1..], replace);
    BuildFrom(text, Starts(rest, q), root, replace);
  }

  /** The tree built from the pieces behind the tag of the root. */
  lemma RunDocument(e: OrderedElement, inner: seq<Piece>, replace: bool)
    requires inner == if IsSingle(e) then [] else Essence(BodyPieces(e))
    ensures var root := Element(e.name, "", EmplaceAll(map[], e.attrs), []);
      OutcomeOf(RunPieces(Running([root]), inner, replace)) == Parsed(Reread(Unordered(e), replace))
  {
    var root := Element(e.name, "", EmplaceAll(map[], e.attrs), []);
    if !IsSingle(e) {
      LayoutIsNothing(Running([root]), BodyPieces(e), replace);
      RunBody([], e, replace);
      assert [] + [root] == [root];
    }
  }

  /**
   Layout does not matter: any document that shows the tags and the character data of a tree, with white
   space between tags and comments anywhere, parses to that tree.
   */
  lemma ParseLaidOut(e: OrderedElement, ps: seq<Piece>, replace: bool)
    requires WellNamed(e) && !("?" <= e.name)
    requires ValidPieces(ps) && Essence(ps) == Essence(PiecesOf(e))
    ensures Parse(RenderAll(ps), replace) == Parsed(Reread(Unordered(e), replace))
  {
    hide Parse, OutcomeOf, RunPieces, RenderAll, ValidPieces, Essence, BodyPieces, Unordered, Reread;
    RootFirst(e);
    var inner := if IsSingle(e) then [] else Essence(BodyPieces(e));
    ParseOfPieces(ps, OpenTag(e.name, e.attrs, IsSingle(e)), inner, replace);
    RunDocument(e, inner, replace);
  }

  lemma EssenceCons(ps: seq<Piece>, tag: Piece, rest: seq<Piece>)
    requires ps != [] && !ps[0].Space? && !ps[0].Note? && Essence(ps) == [tag] + rest
    ensures Canonical(ps[0]) == tag && Essence(ps[1..]) == rest
  {
    assert Essence(ps)[1..] == Essence(ps[1..]);
    assert ([tag] + rest)[1..] == rest;
  }

  lemma AtStart(text: string)
    ensures OnMark(text, 0)
  {
  }

  lemma CleanedIs(text: string)
    ensures Cleaned(text) == DropLeadingComments(text, Collapse(text, Tidy(text, 0)))
  {
  }

  lemma BuildFrom(text: string, marks: seq<nat>, root: Element, replace: bool)
    requires |marks| >= 2
    requires ExtractName(text, marks[0], marks[1]) == root.name && root.content == "" && root.children == []
    requires AttributesOf(text, marks[0], marks[1]) == Some(root.attrs)
    ensures BuildTree(text, marks, replace)
         == match Run(Running([root]), text, marks[1..], replace)
            case Running(stack) => if stack == [] then Failed else Finished(RootOf(stack))
            case b => b
  {
    hide Run, ExtractName, AttributesOf, RootOf;
  }

  lemma RootFirst(e: OrderedElement)
    ensures Essence(PiecesOf(e))
         == [OpenTag(e.name, e.attrs, IsSingle(e))] + if IsSingle(e) then [] else Essence(BodyPieces(e))
  {
    hide BodyPieces;
    var tag := OpenTag(e.name, e.attrs, IsSingle(e));
    var rest := if IsSingle(e) then [] else BodyPieces(e);
    assert PiecesOf(e)[1..] == rest;
    assert Essence(PiecesOf(e)) == [tag] + Essence(rest);
  }

  /** What comes back from a printed tree, for every shape, depth and attribute order. */
  lemma ParsePrinted(e: OrderedElement, replace: bool)
    requires WellNamed(e) && !("?" <= e.name)
    ensures Parse(Print(e), replace) == Parsed(Reread(Unordered(e), replace))
  {
    PiecesTagged(e);
    PrintIsRendered(e);
    ParseLaidOut(e, PiecesOf(e), replace);
  }

  lemma {:induction false} RereadIdentity(e: Element)
    ensures Reread(e, true) == e <==> NoBlankContent(e)
    decreases e, 0
  {
    RereadAllIdentity(e.children);
  }

  lemma {:induction false} RereadAllIdentity(es: seq<Element>)
    ensures RereadAll(es, true) == es <==> NoneBlank(es)
    decreases es, 1
  {
    if es != [] {
      RereadIdentity(es[0]);
      RereadAllIdentity(es[1..]);
      assert es == [es[0]] + es[1..];
      assert RereadAll(es, true)[1..] == RereadAll(es[1..], true);
      assert NoneBlank(es) <==> NoBlankContent(es[0]) && NoneBlank(es[1..]) by {
        assert forall k | 0 <= k < |es[1..]| :: es[1..][k] == es[k + 1];
      }
    }
  }

  // ----- small documents -----

  lemma NameHasNoMarkup(name: string)
    requires GoodName(name)
    ensures NoMarkup(name)
  {
  }
}
