/** Documents with comments anywhere, inside character data too, and with character data between children. */
module XmlMixed {
  import opened Text
  import opened XmlTags
  import opened XmlTree
  import opened XmlPieces
  import opened XmlReading
  import opened XmlRoundTrip
  import opened Substitution
  import Entities

  /** What stands in an element, in order: runs of loose text without a comment in them, and elements. */
  datatype Node =
    | Words(text: string)
    | Child(name: string, attrs: AttributeList, body: seq<Node>)

  /** The pieces of a node: none of an empty run, and a single tag of an element without a body. */
  function PiecesOfNode(n: Node): seq<Piece>
    decreases n, 1
  {
    match n
    case Words(text) => LoosePieces(text)
    case Child(name, attrs, body) =>
      if body == [] then [OpenTag(name, attrs, true)]
      else [OpenTag(name, attrs, false)] + (PiecesOfBody(body) + [CloseTag(name)])
  }

  function PiecesOfBody(body: seq<Node>): seq<Piece>
    decreases body, 0
  {
    if body == [] then [] else PiecesOfNode(body[0]) + PiecesOfBody(body[1..])
  }

  function Empty(n: Node): Element
    requires n.Child?
  {
    Element(n.name, "", EmplaceAll(map[], n.attrs), [])
  }

  /** The parser appends each run that is not blank and decodes the whole content again; blank runs are lost. */
  function AddRun(top: Element, text: string): Element {
    if AllSpace(text) then top else AddContent(top, text, true)
  }

  /** What the parser makes of an element and the rest of its body. */
  function Read(top: Element, body: seq<Node>): Element
    decreases body
  {
    if body == [] then top
    else
      match body[0]
      case Words(text) => Read(AddRun(top, text), body[1..])
      case Child(_, _, inner) => Read(AddChild(top, Read(Empty(body[0]), inner)), body[1..])
  }

  lemma {:induction false} RunNode(below: seq<Element>, top: Element, n: Node)
    ensures RunPieces(Running(below + [top]), PiecesOfNode(n), true) == Running(below + [Read(top, [n])])
    decreases n, 1
  {
    hide Entities.Decode, EmplaceAll;
    var stack := below + [top];
    assert stack[..|stack| - 1] == below;
    assert [n][1..] == [];
    match n
    case Words(text) =>
      assert Read(top, [n]) == Read(AddRun(top, text), []) == AddRun(top, text);
      RunLoose(below, top, text);
    case Child(name, attrs, body) =>
      var made := Read(Empty(n), body);
      PopOnto(below, top, made);
      if body == [] {
        assert [OpenTag(name, attrs, true)][1..] == [];
      } else {
        OpenThen(stack, OpenTag(name, attrs, false), PiecesOfBody(body) + [CloseTag(name)]);
        RunNodes(stack, Empty(n), body);
        RunConcat(Running(stack + [Empty(n)]), PiecesOfBody(body), [CloseTag(name)], true);
        RunClose(stack + [made], name, true);
      }
  }

  lemma RunLoose(below: seq<Element>, top: Element, text: string)
    ensures RunPieces(Running(below + [top]), LoosePieces(text), true) == Running(below + [AddRun(top, text)])
  {
    hide Entities.Decode;
    var stack := below + [top];
    assert stack[..|stack| - 1] == below;
    if text != "" {
      var piece := LoosePieces(text)[0];
      assert LoosePieces(text)[1..] == [];
      assert RunPieces(Running(stack), [piece], true) == RunPieces(StepPiece(Running(stack), piece, true), [], true);
    }
  }

  lemma OpenThen(stack: seq<Element>, tag: Piece, rest: seq<Piece>)
    requires stack != [] && tag.OpenTag? && !tag.single
    ensures RunPieces(Running(stack), [tag] + rest, true) == RunPieces(Running(stack + [RootElement(tag)]), rest, true)
  {
    assert ([tag] + rest)[1..] == rest;
  }

  lemma {:induction false} RunNodes(below: seq<Element>, top: Element, body: seq<Node>)
    ensures RunPieces(Running(below + [top]), PiecesOfBody(body), true) == Running(below + [Read(top, body)])
    decreases body, 0
  {
    hide PiecesOfNode, AddRun;
    if body != [] {
      RunNode(below, top, body[0]);
      RunConcat(Running(below + [top]), PiecesOfNode(body[0]), PiecesOfBody(body[1..]), true);
      RunNodes(below, Read(top, [body[0]]), body[1..]);
      ReadFirst(top, body);
    }
  }

  lemma ReadFirst(top: Element, body: seq<Node>)
    requires body != []
    ensures Read(top, body) == Read(Read(top, [body[0]]), body[1..])
  {
    hide AddRun;
    assert [body[0]][1..] == [];
  }

  /**
   Any document that shows the tags and the character data of a root element, with comments anywhere and white
   space between tags, parses to what appending and decoding its runs of character data one by one gives.
   */
  lemma MixedContent(root: Node, ps: seq<Piece>)
    requires root.Child? && !("?" <= root.name)
    requires ValidPieces(ps) && Essence(ps) == Essence(PiecesOfNode(root))
    ensures Parse(RenderAll(ps), true) == Parsed(Read(Empty(root), root.body))
  {
    hide Parse, RenderAll, ValidPieces, Essence, EmplaceAll, Entities.Decode, PiecesOfBody;
    var tag := OpenTag(root.name, root.attrs, root.body == []);
    if root.body == [] {
      NodeEssence(root, []);
      assert PiecesOfNode(root) == [tag] + [];
      NothingEssential();
      ParseOfPieces(ps, tag, [], true);
    } else {
      var inner := PiecesOfBody(root.body) + [CloseTag(root.name)];
      NodeEssence(root, inner);
      ParseOfPieces(ps, tag, Essence(inner), true);
      var empty, made := Empty(root), Read(Empty(root), root.body);
      assert [] + [empty] == [empty] && [] + [made] == [made];
      LayoutIsNothing(Running([empty]), inner, true);
      RunNodes([], empty, root.body);
      RunConcat(Running([empty]), PiecesOfBody(root.body), [CloseTag(root.name)], true);
      RunClose([made], root.name, true);
    }
  }

  lemma NodeEssence(root: Node, inner: seq<Piece>)
    requires root.Child? && PiecesOfNode(root) == [OpenTag(root.name, root.attrs, root.body == [])] + inner
    ensures Essence(PiecesOfNode(root)) == [OpenTag(root.name, root.attrs, root.body == [])] + Essence(inner)
  {
    hide PiecesOfNode;
    assert PiecesOfNode(root)[1..] == inner;
  }

  lemma NothingEssential()
    ensures Essence([]) == []
  {
  }

  // ----- when comments in the content do no harm -----

  /** The same body with its character data escaped, as the printer would write it. */
  function Written(body: seq<Node>): seq<Node>
    decreases body
  {
    if body == [] then []
    else
      match body[0]
      case Words(text) => [Words(Entities.Escape(text))] + Written(body[1..])
      case Child(name, attrs, inner) => [Child(name, attrs, Written(inner))] + Written(body[1..])
  }

  /** The element a body is meant to stand for: its runs of character data joined, its children in order. */
  function Meant(top: Element, body: seq<Node>): Element
    decreases body
  {
    if body == [] then top
    else
      match body[0]
      case Words(text) => Meant(top.(content := top.content + text), body[1..])
      case Child(_, _, inner) => Meant(AddChild(top, Meant(Empty(body[0]), inner)), body[1..])
  }

  function Texts(body: seq<Node>): seq<string> {
    if body == [] then []
    else if body[0].Words? then [body[0].text] + Texts(body[1..])
    else Texts(body[1..])
  }

  function ReadChildren(body: seq<Node>): seq<Element> {
    if body == [] then []
    else if body[0].Words? then ReadChildren(body[1..])
    else [Read(Empty(body[0]), Written(body[0].body))] + ReadChildren(body[1..])
  }

  function MeantChildren(body: seq<Node>): seq<Element> {
    if body == [] then []
    else if body[0].Words? then MeantChildren(body[1..])
    else [Meant(Empty(body[0]), body[0].body)] + MeantChildren(body[1..])
  }

  /** No run is blank unless it is empty, and no reference begins in the text in front of a run that is not empty. */
  predicate Sound(body: seq<Node>)
    decreases body, 1
  {
    NoBlankText(Texts(body)) && AllUndisturbed("", Visible(Texts(body))) && ChildrenSound(body)
  }

  predicate ChildrenSound(body: seq<Node>)
    decreases body, 0
  {
    body == [] || ((body[0].Child? ==> Sound(body[0].body)) && ChildrenSound(body[1..]))
  }

  lemma WrittenStep(top: Element, body: seq<Node>)
    requires body != []
    ensures body[0].Words? ==>
              Read(top, Written(body)) == Read(AddRun(top, Entities.Escape(body[0].text)), Written(body[1..]))
    ensures body[0].Child? ==>
              Read(top, Written(body)) == Read(AddChild(top, Read(Empty(body[0]), Written(body[0].body))), Written(body[1..]))
  {
    hide Entities.Escape, AddRun, AddChild, EmplaceAll;
    assert Written(body)[1..] == Written(body[1..]);
  }

  lemma TextsStep(body: seq<Node>)
    requires body != []
    ensures body[0].Words? ==> Texts(body) == [body[0].text] + Texts(body[1..])
    ensures body[0].Child? ==> Texts(body) == Texts(body[1..])
  {
  }

  lemma JoinedStep(so: string, text: string, rest: seq<string>)
    ensures Joined(so, [text] + rest) == Joined(so + text, rest)
  {
    assert ([text] + rest)[1..] == rest;
  }

  lemma GatheredStep(top: Element, text: string, rest: seq<string>)
    ensures var next := AddRun(top, Entities.Escape(text));
      && next.name == top.name && next.attrs == top.attrs && next.children == top.children
      && Gathered(top.content, EscapeAll(Visible([text] + rest))) == Gathered(next.content, EscapeAll(Visible(rest)))
  {
    hide Entities.Decode, Entities.Escape;
    Entities.EscapeShape(text);
    assert ([text] + rest)[1..] == rest;
    if !AllSpace(text) {
      assert ([text] + Visible(rest))[1..] == Visible(rest);
      assert EscapeAll([text] + Visible(rest))[1..] == EscapeAll(Visible(rest));
    }
  }

  lemma {:induction false} ReadParts(top: Element, body: seq<Node>)
    ensures Read(top, Written(body))
         == Element(top.name, Gathered(top.content, EscapeAll(Visible(Texts(body)))), top.attrs,
                    top.children + ReadChildren(body))
    decreases body
  {
    hide Entities.Decode, Entities.Escape, Texts, Written, Read, Gathered, EscapeAll, Visible, Empty, AddRun;
    if body == [] {
      NothingRead(top);
    } else {
      WrittenStep(top, body);
      TextsStep(body);
      if body[0].Words? {
        GatheredStep(top, body[0].text, Texts(body[1..]));
        ReadParts(AddRun(top, Entities.Escape(body[0].text)), body[1..]);
      } else {
        var child := Read(Empty(body[0]), Written(body[0].body));
        ReadParts(AddChild(top, child), body[1..]);
        assert (top.children + [child]) + ReadChildren(body[1..]) == top.children + ReadChildren(body);
      }
    }
  }

  lemma NothingRead(top: Element)
    ensures Read(top, Written([])) == top && Gathered(top.content, EscapeAll(Visible(Texts([])))) == top.content
    ensures Meant(top, []) == top && Joined(top.content, Texts([])) == top.content
  {
  }

  lemma MeantStep(top: Element, body: seq<Node>)
    requires body != []
    ensures body[0].Words? ==> Meant(top, body) == Meant(top.(content := top.content + body[0].text), body[1..])
    ensures body[0].Child? ==> Meant(top, body) == Meant(AddChild(top, Meant(Empty(body[0]), body[0].body)), body[1..])
  {
  }

  lemma {:induction false} MeantParts(top: Element, body: seq<Node>)
    ensures Meant(top, body)
         == Element(top.name, Joined(top.content, Texts(body)), top.attrs, top.children + MeantChildren(body))
    decreases body
  {
    hide Entities.Decode, Entities.Escape, Texts, Meant, Joined, Empty;
    if body == [] {
      NothingRead(top);
    } else {
      MeantStep(top, body);
      TextsStep(body);
      if body[0].Words? {
        JoinedStep(top.content, body[0].text, Texts(body[1..]));
        MeantParts(top.(content := top.content + body[0].text), body[1..]);
      } else {
        var child := Meant(Empty(body[0]), body[0].body);
        MeantParts(AddChild(top, child), body[1..]);
        assert (top.children + [child]) + MeantChildren(body[1..]) == top.children + MeantChildren(body);
      }
    }
  }

  lemma {:induction false} ReadAsMeant(top: Element, body: seq<Node>)
    requires top.content == "" && top.children == []
    ensures Read(top, Written(body)) == Meant(top, body) <==> Sound(body)
    decreases body, 1
  {
    hide Gathered, Joined, AllUndisturbed, NoBlankText, Visible, Read, Meant, ReadChildren, MeantChildren;
    ReadParts(top, body);
    MeantParts(top, body);
    VisibleExactly(Texts(body));
    ChildrenAsMeant(body);
    assert [] + ReadChildren(body) == ReadChildren(body) && [] + MeantChildren(body) == MeantChildren(body);
  }

  lemma {:induction false} ChildrenAsMeant(body: seq<Node>)
    ensures ReadChildren(body) == MeantChildren(body) <==> ChildrenSound(body)
    decreases body, 0
  {
    hide Sound, Read, Meant, Empty;
    if body != [] {
      ChildrenAsMeant(body[1..]);
      if body[0].Child? {
        EmptyIs(body[0]);
        ReadAsMeant(Empty(body[0]), body[0].body);
        HeadAndTail(ReadChildren(body), MeantChildren(body));
      }
    }
  }

  lemma EmptyIs(n: Node)
    requires n.Child?
    ensures Empty(n).content == "" && Empty(n).children == []
  {
  }

  lemma HeadAndTail(xs: seq<Element>, ys: seq<Element>)
    requires xs != [] && ys != []
    ensures xs == ys <==> xs[0] == ys[0] && xs[1..] == ys[1..]
  {
    assert xs == [xs[0]] + xs[1..] && ys == [ys[0]] + ys[1..];
  }

  /**
   Comments anywhere, inside character data too, leave the parsed tree unchanged exactly when they cut off no run
   of white space, which is lost, and in no element a reference begins in the text in front of another run,
   where it would be decoded a second time.
   */
  lemma CommentsInContent(root: Node, ps: seq<Piece>)
    requires root.Child? && !("?" <= root.name)
    requires ValidPieces(ps) && Essence(ps) == Essence(PiecesOfNode(root.(body := Written(root.body))))
    ensures Parse(RenderAll(ps), true) == Parsed(Meant(Empty(root), root.body)) <==> Sound(root.body)
  {
    hide Parse, RenderAll, ValidPieces, Essence, PiecesOfNode, Sound, Read, Meant;
    MixedContent(root.(body := Written(root.body)), ps);
    EmptyIs(root);
    ReadAsMeant(Empty(root), root.body);
  }

  // ----- one comment in the content of an element -----

  /** An element with content, a comment, and more content. */
  function Commented(name: string, attrs: AttributeList, u: string, note: string, v: string): seq<Piece> {
    [OpenTag(name, attrs, false)] + ContentPieces(u) + [Note(note)] + ContentPieces(v) + [CloseTag(name)]
  }

  /**
   The condition for any two texts: neither may be blank without being empty, and no reference may begin in the
   first one if there is a second.
   */
  lemma CommentInContent(name: string, attrs: AttributeList, u: string, note: string, v: string)
    requires GoodName(name) && GoodAttributes(attrs) && !("?" <= name) && EndFree(note)
    ensures Parse(RenderAll(Commented(name, attrs, u, note, v)), true)
         == Parsed(Element(name, u + v, EmplaceAll(map[], attrs), []))
       <==> (AllSpace(u) ==> u == "") && (AllSpace(v) ==> v == "") && (v == "" || Undisturbed(u, v))
  {
    hide *;
    var root := Child(name, attrs, [Words(u), Words(v)]);
    CommentedIsValid(name, attrs, u, note, v);
    CommentedEssence(name, attrs, u, note, v);
    WrittenTwice(u, v);
    CommentsInContent(root, Commented(name, attrs, u, note, v));
    MeantTwice(root, u, v);
    SoundTwice(u, v);
  }

  lemma CommentedIsValid(name: string, attrs: AttributeList, u: string, note: string, v: string)
    requires GoodName(name) && GoodAttributes(attrs) && EndFree(note)
    ensures ValidPieces(Commented(name, attrs, u, note, v))
  {
    hide GoodName, GoodAttributes, NoMarkup, AllSpace, EndFree, Entities.Escape;
    NameHasNoMarkup(name);
    LooseIsValid(u);
    LooseIsValid(v);
  }

  lemma LooseIsValid(u: string)
    ensures |ContentPieces(u)| <= 1 && forall p | p in ContentPieces(u) :: ValidPiece(p) && IsLoose(p)
  {
    Entities.EscapeShape(u);
  }

  lemma CommentedEssence(name: string, attrs: AttributeList, u: string, note: string, v: string)
    ensures var words := [Words(Entities.Escape(u)), Words(Entities.Escape(v))];
      Essence(Commented(name, attrs, u, note, v)) == Essence(PiecesOfNode(Child(name, attrs, words)))
  {
    hide ContentPieces, Essence, PiecesOfNode;
    var tag, close, note := OpenTag(name, attrs, false), CloseTag(name), Note(note);
    var xs, ys := ContentPieces(u), ContentPieces(v);
    TwoPieces(name, attrs, u, v);
    EssenceConcat([tag] + xs + [note] + ys, [close]);
    EssenceConcat([tag] + xs + [note], ys);
    EssenceConcat([tag] + xs, [note]);
    EssenceConcat([tag] + xs + ys, [close]);
    EssenceConcat([tag] + xs, ys);
    NoteIsLayout(note);
  }

  lemma NoteIsLayout(note: Piece)
    requires note.Note?
    ensures Essence([note]) == []
  {
    assert [note][1..] == [];
  }

  lemma TwoPieces(name: string, attrs: AttributeList, u: string, v: string)
    ensures PiecesOfNode(Child(name, attrs, [Words(Entities.Escape(u)), Words(Entities.Escape(v))]))
         == [OpenTag(name, attrs, false)] + ContentPieces(u) + ContentPieces(v) + [CloseTag(name)]
  {
    hide Entities.Escape, LoosePieces;
    var x, y := Words(Entities.Escape(u)), Words(Entities.Escape(v));
    assert [x, y][1..] == [y] && [y][1..] == [];
    assert PiecesOfBody([y]) == ContentPieces(v) + PiecesOfBody([]);
    assert PiecesOfBody([x, y]) == ContentPieces(u) + PiecesOfBody([y]);
  }

  lemma WrittenTwice(u: string, v: string)
    ensures Written([Words(u), Words(v)]) == [Words(Entities.Escape(u)), Words(Entities.Escape(v))]
  {
    hide Entities.Escape;
    assert [Words(u), Words(v)][1..] == [Words(v)] && [Words(v)][1..] == [];
    assert Written([Words(v)]) == [Words(Entities.Escape(v))] + Written([]);
    assert Written([Words(u), Words(v)]) == [Words(Entities.Escape(u))] + Written([Words(v)]);
  }

  lemma MeantTwice(root: Node, u: string, v: string)
    requires root.Child? && root.body == [Words(u), Words(v)]
    ensures root.name == Empty(root).name
    ensures Meant(Empty(root), root.body) == Element(root.name, u + v, EmplaceAll(map[], root.attrs), [])
  {
    hide EmplaceAll;
    assert root.body[1..] == [Words(v)] && [Words(v)][1..] == [];
    var once := Empty(root).(content := "" + u);
    assert Meant(Empty(root), root.body) == Meant(once, [Words(v)]) == Meant(once.(content := "" + u + v), []);
    assert "" + u + v == u + v;
  }

  lemma SoundTwice(u: string, v: string)
    ensures Sound([Words(u), Words(v)])
       <==> (AllSpace(u) ==> u == "") && (AllSpace(v) ==> v == "") && (v == "" || Undisturbed(u, v))
  {
    hide Undisturbed, AllSpace, NoBlankText, Visible, AllUndisturbed;
    var body := [Words(u), Words(v)];
    assert body[1..] == [Words(v)] && [Words(v)][1..] == [];
    assert Texts([Words(v)]) == [v] + Texts([]);
    assert Texts(body) == [u] + Texts([Words(v)]) == [u, v];
    assert ChildrenSound([]);
    assert ChildrenSound([Words(v)]);
    assert ChildrenSound(body);
    TwoUndisturbed(u, v);
  }

  lemma TwoUndisturbed(u: string, v: string)
    ensures NoBlankText([u, v]) && AllUndisturbed("", Visible([u, v]))
       <==> (AllSpace(u) ==> u == "") && (AllSpace(v) ==> v == "") && (v == "" || Undisturbed(u, v))
  {
    hide Undisturbed, AllSpace;
    assert NoBlankText([u, v]) <==> (AllSpace(u) ==> u == "") && (AllSpace(v) ==> v == "") by {
      assert [u, v][0] == u && [u, v][1] == v;
    }
    assert AllSpace("") by { NothingIsBlank(); }
    assert [u, v][1..] == [v] && [v][1..] == [] && [u][1..] == [];
    assert "" + u == u && "" + v == v;
    NothingBefore(u);
    NothingBefore(v);
    var rest := if AllSpace(v) then [] else [v];
    assert Visible([v]) == rest;
    assert Visible([u, v]) == (if AllSpace(u) then [] else [u]) + rest;
    assert AllUndisturbed(u, [v]) == Undisturbed(u, v);
    if !AllSpace(u) {
      assert ([u] + rest)[1..] == rest;
      assert AllUndisturbed("", [u] + rest) == AllUndisturbed(u, rest);
    }
  }

  lemma NothingIsBlank()
    ensures AllSpace("")
  {
  }

  // ----- small documents -----

  /** The same character data with and without a comment in it: "<" against "&lt;". */
  lemma CommentChangesContent()
    ensures Parse(RenderAll([OpenTag("a", [], false), Chars("&amp;"), Note(""), Chars("lt;"), CloseTag("a")]), true)
         == Parsed(Element("a", "<", map[], []))
    ensures Parse(Print(OrderedElement("a", "&lt;", [], [])), true) == Parsed(Element("a", "&lt;", map[], []))
  {
    hide Parse, RenderAll, Print, WellNamed, Entities.Decode, ValidPieces, AllSpace;
    SamplePieces();
    RunsCommented("&amp;", "lt;");
    assert "" + "&amp;" == "&amp;";
    SampleDecoded();
    ParsePrinted(OrderedElement("a", "&lt;", [], []), true);
  }

  /** A blank beside a comment is lost, where the same blank without the comment is content. */
  lemma CommentLosesBlank()
    ensures Parse(RenderAll([OpenTag("a", [], false), Space(" "), Note(""), Chars("b"), CloseTag("a")]), true)
         == Parsed(Element("a", "b", map[], []))
    ensures Parse(Print(OrderedElement("a", " b", [], [])), true) == Parsed(Element("a", " b", map[], []))
    ensures Undisturbed(" ", "b")
  {
    hide Parse, RenderAll, Print, WellNamed, Entities.Decode, ValidPieces, AllSpace;
    BlankPieces();
    RunsCommented(" ", "b");
    assert "" + "b" == "b";
    BlankDecoded();
    ParsePrinted(OrderedElement("a", " b", [], []), true);
  }

  /** A small document with two runs of loose text. */
  lemma RunsCommented(x: string, y: string)
    requires x != "" && y != "" && !AllSpace(y)
    requires ValidPieces([OpenTag("a", [], false), LoosePieces(x)[0], Note(""), Chars(y), CloseTag("a")])
    ensures var content := if AllSpace(x) then "" else Entities.Decode("" + x);
      Parse(RenderAll([OpenTag("a", [], false), LoosePieces(x)[0], Note(""), Chars(y), CloseTag("a")]), true)
      == Parsed(Element("a", Entities.Decode(content + y), map[], []))
  {
    hide Parse, RenderAll, ValidPieces, AllSpace, Essence, Entities.Decode, PiecesOfNode, Read;
    var root := Child("a", [], [Words(x), Words(y)]);
    var tag, first, note, second, close := OpenTag("a", [], false), LoosePieces(x)[0], Note(""), Chars(y), CloseTag("a");
    assert "?"[0] != "a"[0];
    RawPieces(root, x, y);
    assert [tag, first, note, second, close] == [tag, first] + [note] + [second, close];
    EssenceConcat([tag, first] + [note], [second, close]);
    EssenceConcat([tag, first], [note]);
    NoteIsLayout(note);
    EssenceConcat([tag, first], [second, close]);
    assert [tag, first] + [second, close] == [tag] + LoosePieces(x) + LoosePieces(y) + [close];
    MixedContent(root, [tag, first, note, second, close]);
    ReadTwice(root, x, y);
  }

  lemma RawPieces(root: Node, x: string, y: string)
    requires root == Child("a", [], [Words(x), Words(y)])
    ensures PiecesOfNode(root) == [OpenTag("a", [], false)] + LoosePieces(x) + LoosePieces(y) + [CloseTag("a")]
  {
    hide LoosePieces;
    assert root.body[1..] == [Words(y)] && [Words(y)][1..] == [];
    assert PiecesOfBody([Words(y)]) == LoosePieces(y) + PiecesOfBody([]);
    assert PiecesOfBody(root.body) == LoosePieces(x) + PiecesOfBody([Words(y)]);
  }

  lemma ReadTwice(root: Node, x: string, y: string)
    requires root.Child? && root.body == [Words(x), Words(y)] && !AllSpace(y)
    ensures var content := if AllSpace(x) then "" else Entities.Decode("" + x);
      Read(Empty(root), root.body)
      == Element(root.name, Entities.Decode(content + y), EmplaceAll(map[], root.attrs), [])
  {
    hide EmplaceAll, Entities.Decode, AllSpace;
    assert root.body[1..] == [Words(y)] && [Words(y)][1..] == [];
    var once := AddRun(Empty(root), x);
    assert Read(Empty(root), root.body) == Read(once, [Words(y)]);
    assert Read(once, [Words(y)]) == Read(AddRun(once, y), []);
  }

  lemma SamplePieces()
    ensures ValidPieces([OpenTag("a", [], false), Chars("&amp;"), Note(""), Chars("lt;"), CloseTag("a")])
    ensures WellNamed(OrderedElement("a", "&lt;", [], [])) && !AllSpace("&lt;") && !("?" <= "a")
    ensures !AllSpace("&amp;") && !AllSpace("lt;")
  {
    assert "?"[0] != "a"[0];
    assert !IsSpace("&amp;"[0]) && !IsSpace("lt;"[0]) && !IsSpace("&lt;"[0]);
    assert !("!--" <= "a");
  }

  lemma BlankPieces()
    ensures ValidPieces([OpenTag("a", [], false), Space(" "), Note(""), Chars("b"), CloseTag("a")])
    ensures WellNamed(OrderedElement("a", " b", [], [])) && !AllSpace(" b") && !("?" <= "a")
    ensures AllSpace(" ") && !AllSpace("b")
  {
    assert "?"[0] != "a"[0];
    assert IsSpace(" "[0]) && !IsSpace("b"[0]) && !IsSpace(" b"[1]);
    assert !("!--" <= "a");
  }

  lemma SampleDecoded()
    ensures Entities.Decode("&amp;") == "&" && Entities.Decode("&" + "lt;") == "<"
  {
    hide Entities.Decode;
    Entities.DecodeEscape("&");
    Entities.DecodeEscape("<");
    assert "&"[1..] == "" && "<"[1..] == "";
    assert "&amp;" + "" == "&amp;" && "&lt;" + "" == "&lt;";
    assert Entities.Escape("&") == "&amp;" && Entities.Escape("<") == "&lt;";
    assert "&" + "lt;" == "&lt;";
  }

  lemma BlankDecoded()
    ensures Entities.Decode("b") == "b" && Undisturbed(" ", "b")
  {
    hide Entities.Decode;
    Entities.DecodeEscape("b");
    assert "b"[1..] == "" && Entities.Escape("b") == "b" + Entities.Escape("");
    assert Entities.Escape("b") == "b";
  }
}
