/** Whole documents: a declaration and a tree, printed and read back. */
module XmlDeclarations {
  import opened Text
  import opened XmlTags
  import opened XmlScan
  import opened XmlTree
  import opened XmlPieces
  import opened XmlReading
  import opened XmlRoundTrip
  import opened XmlDocuments

  // ----- printing a document -----

  /** The values that are declared, in their fixed order. */
  function Declared(info: Info): AttributeList {
    Entry("version", info.version) + Entry("encoding", info.encoding) + Entry("standalone", info.standalone)
  }

  function Entry(key: string, value: string): AttributeList {
    if value == "" then [] else [(key, value)]
  }

  function DeclarationText(info: Info): string {
    if info == NO_INFO then "" else "<?xml" + PrintAttributes(Declared(info)) + " ?>"
  }

  /** One of the values, if it is declared. */
  function ValueText(key: string, value: string): string {
    if value == "" then "" else " " + key + "=\"" + value + "\""
  }

  lemma {:induction false} PrintConcat(xs: AttributeList, ys: AttributeList)
    ensures PrintAttributes(xs + ys) == PrintAttributes(xs) + PrintAttributes(ys)
  {
    hide PrintAttribute;
    if xs == [] {
      assert xs + ys == ys;
    } else {
      assert (xs + ys)[1..] == xs[1..] + ys;
      PrintConcat(xs[1..], ys);
    }
  }

  lemma EntryText(key: string, value: string)
    ensures PrintAttributes(Entry(key, value)) == ValueText(key, value)
  {
    assert [(key, value)][1..] == [];
    assert PrintAttributes([]) == "";
  }

  /** A declaration, character by character. */
  lemma DeclarationWritten(info: Info)
    ensures DeclarationText(info) == if info == NO_INFO then "" else
      "<?xml" + ValueText("version", info.version) + ValueText("encoding", info.encoding)
      + ValueText("standalone", info.standalone) + " ?>"
  {
    hide PrintAttributes, Entry, ValueText;
    PrintConcat(Entry("version", info.version) + Entry("encoding", info.encoding), Entry("standalone", info.standalone));
    PrintConcat(Entry("version", info.version), Entry("encoding", info.encoding));
    EntryText("version", info.version);
    EntryText("encoding", info.encoding);
    EntryText("standalone", info.standalone);
  }

  ghost predicate PrintsDocument(out: string, info: Info, root: Element) {
    exists tree :: Prints(tree, root) && out == DeclarationText(info) + tree
  }

  /** `ToString` of a document. */
  method WriteDocument(info: Info, root: Element) returns (out: string)
    ensures PrintsDocument(out, info, root)
  {
    hide Prints, PrintAttribute, PrintAttributes;
    NoAttributes();
    out := "";
    if !(info.version == "" && info.encoding == "" && info.standalone == "") {
      out := out + "<?xml";
      var data := [info.version, info.encoding, info.standalone];
      ghost var done: AttributeList := [];
      for i := 0 to 3
        invariant out == "<?xml" + PrintAttributes(done)
        invariant done == (if i > 0 then Entry("version", data[0]) else [])
                        + (if i > 1 then Entry("encoding", data[1]) else [])
                        + (if i > 2 then Entry("standalone", data[2]) else [])
      {
        if data[i] != "" {
          ghost var attr := (DECLARATION_KEYS[i], data[i]);
          PrintSnoc(done, attr);
          done := done + [attr];
          out := out + PrintAttribute((DECLARATION_KEYS[i], data[i]));
        }
      }
      out := out + " ?>";
    }
    var tree := WriteElement(root);
    out := out + tree;
  }

  lemma NoAttributes()
    ensures PrintAttributes([]) == ""
  {
  }

  lemma {:induction false} PrintSnoc(attrs: AttributeList, attr: (string, string))
    ensures PrintAttributes(attrs + [attr]) == PrintAttributes(attrs) + PrintAttribute(attr)
  {
    hide PrintAttribute;
    if attrs == [] {
      assert ([] + [attr])[1..] == [];
    } else {
      assert (attrs + [attr])[1..] == attrs[1..] + [attr];
      PrintSnoc(attrs[1..], attr);
    }
  }

  // ----- reading it back -----

  predicate GoodValue(value: string) {
    NoMarkup(value) && NUL !in value && forall k | 0 <= k < |value| :: value[k] != '\"'
  }

  predicate GoodInfo(info: Info) {
    GoodValue(info.version) && GoodValue(info.encoding) && GoodValue(info.standalone)
  }

  lemma DeclaredIsGood(info: Info)
    requires GoodInfo(info)
    ensures GoodAttributes(Declared(info)) && NUL !in PrintAttributes(Declared(info))
  {
    hide Entry, GoodValue, GoodAttribute, PrintAttributes;
    EntryIsGood("version", info.version);
    EntryIsGood("encoding", info.encoding);
    EntryIsGood("standalone", info.standalone);
    AttributesNulFree(Declared(info));
  }

  lemma EntryIsGood(key: string, value: string)
    requires key in DECLARATION_KEYS && GoodValue(value)
    ensures GoodAttributes(Entry(key, value))
    ensures forall attr | attr in Entry(key, value) :: NUL !in attr.0 && NUL !in attr.1
  {
  }

  /** The values are found again under their keys. */
  lemma InfoReadBack(info: Info)
    ensures InfoOf(EmplaceAll(map[], Declared(info))) == info
  {
    hide EmplaceAll, DistinctKeys;
    var attrs := Declared(info);
    DeclaredKeys(info);
    ValueIsFound(attrs, "version", info.version);
    ValueIsFound(attrs, "encoding", info.encoding);
    ValueIsFound(attrs, "standalone", info.standalone);
  }

  predicate Lists(attrs: AttributeList, key: string, value: string) {
    if value == "" then forall k | 0 <= k < |attrs| :: attrs[k].0 != key
    else exists k :: 0 <= k < |attrs| && attrs[k] == (key, value)
  }

  lemma DeclaredKeys(info: Info)
    ensures DistinctKeys(Declared(info))
    ensures var attrs := Declared(info);
      Lists(attrs, "version", info.version) && Lists(attrs, "encoding", info.encoding)
      && Lists(attrs, "standalone", info.standalone)
  {
    var attrs := Declared(info);
    assert "version"[0] != "encoding"[0] && "version"[0] != "standalone"[0] && "encoding"[0] != "standalone"[0];
    assert info.version != "" ==> attrs[0] == ("version", info.version);
    assert info.standalone != "" ==> attrs[|attrs| - 1] == ("standalone", info.standalone);
    assert info.encoding != "" ==> attrs[|Entry("version", info.version)|] == ("encoding", info.encoding);
  }

  lemma ValueIsFound(attrs: AttributeList, key: string, value: string)
    requires DistinctKeys(attrs) && Lists(attrs, key, value)
    ensures ValueOf(EmplaceAll(map[], attrs), key) == value
  {
    EmplacedEntries(map[], attrs);
    EmplacedKeys(map[], attrs);
  }

  lemma {:induction false} EmplacedKeys(found: Attributes, attrs: AttributeList)
    ensures forall key | key in EmplaceAll(found, attrs) :: key in found || exists k :: 0 <= k < |attrs| && attrs[k].0 == key
    decreases |attrs|
  {
    if attrs != [] {
      EmplacedKeys(Emplace(found, attrs[0].0, attrs[0].1), attrs[1..]);
      assert forall k | 0 <= k < |attrs[1..]| :: attrs[1..][k] == attrs[k + 1];
    }
  }

  /** A declaration as somebody may write it. */
  function LooseDeclaration(spelled: seq<Spelled>, gap: string): string {
    "<?xml" + SpellAttributes(spelled) + gap + "?>"
  }

  predicate GoodDeclaration(spelled: seq<Spelled>, gap: string) {
    (forall a | a in spelled :: GoodSpelled(a)) && AllSpace(gap)
  }

  lemma PrintedIsLoose(info: Info)
    requires info != NO_INFO
    ensures DeclarationText(info) == LooseDeclaration(Spell(Declared(info)), " ")
    ensures Attrs(Spell(Declared(info))) == Declared(info)
    ensures GoodInfo(info) ==> GoodDeclaration(Spell(Declared(info)), " ")
  {
    hide PrintAttributes, SpellAttributes, Declared, GoodInfo, GoodSpelled;
    SpellIsPrint(Declared(info));
    if GoodInfo(info) {
      DeclaredIsGood(info);
    }
  }

  /** A declaration is one token. */
  lemma DeclarationStands(text: string, spelled: seq<Spelled>, gap: string)
    requires GoodDeclaration(spelled, gap) && StandsAt(text, 0, LooseDeclaration(spelled, gap))
    ensures var s := LooseDeclaration(spelled, gap);
      && Solid(s) && !AllSpace(s) && OnMark(text, |s|) && |s| <= |text|
      && At(text, 0) == '<' && At(text, 1) == '?'
  {
    hide SpellAttributes, GoodSpelled;
    var s := LooseDeclaration(spelled, gap);
    SpelledNoMarkup(spelled);
    var middle := "?xml" + SpellAttributes(spelled) + gap + "?";
    assert s == "<" + middle + ">";
    assert NoMarkup(middle);
    assert text[0 + 0] == s[0] && text[0 + 1] == s[1];
    assert text[0 + (|s| - 1)] == s[|s| - 1] == '>';
    assert !IsSpace(s[0]);
  }

  lemma DeclarationParts(text: string, spelled: seq<Spelled>, gap: string)
    requires StandsAt(text, 0, LooseDeclaration(spelled, gap))
    ensures var attributes := SpellAttributes(spelled);
      && StandsAt(text, 0, "<") && StandsAt(text, 1, "?xml") && StandsAt(text, 5, attributes)
      && StandsAt(text, 5 + |attributes|, gap + "?>")
      && |LooseDeclaration(spelled, gap)| == 5 + |attributes| + |gap + "?>"|
  {
    hide SpellAttributes, StandsAt;
    var attributes := SpellAttributes(spelled);
    assert LooseDeclaration(spelled, gap) == "<" + ("?xml" + (attributes + (gap + "?>")));
    StandsSplit(text, 0, "<", "?xml" + (attributes + (gap + "?>")));
    StandsSplit(text, 1, "?xml", attributes + (gap + "?>"));
    StandsSplit(text, 5, attributes, gap + "?>");
  }

  lemma NoLettersBehind(text: string, e: nat, to: nat, gap: string)
    requires AllSpace(gap) && StandsAt(text, e, gap + "?>")
    requires e + |gap + "?>"| <= to && Blank(text, e + |gap + "?>"|, to)
    ensures forall k | e <= k < to :: !IsAlpha(At(text, k))
  {
    var tail := gap + "?>";
    forall k | e <= k < to
      ensures !IsAlpha(At(text, k))
    {
      if k < e + |tail| {
        assert text[e + (k - e)] == tail[k - e];
      } else {
        assert IsSpace(At(text, k));
      }
    }
  }

  /** The search for the end of the name, which here begins with a question mark. */
  lemma BehindName(text: string, to: nat)
    requires StandsAt(text, 0, "<") && StandsAt(text, 1, "?xml")
    ensures 5 <= to ==> Find(text, 0, to, EndsNamePart) >= 5
    ensures 5 < to && IsSpace(At(text, 5)) ==> Find(text, 0, to, EndsNamePart) == 5
  {
    CharAt(text, 0, "<", 0);
    CharAt(text, 1, "?xml", 0);
    CharAt(text, 1, "?xml", 1);
    CharAt(text, 1, "?xml", 2);
    CharAt(text, 1, "?xml", 3);
    assert forall k | 0 <= k < 5 :: !EndsNamePart(At(text, k));
    if 5 < to && IsSpace(At(text, 5)) {
      FindIs(text, 0, to, EndsNamePart, 5);
    }
  }

  lemma ReadDeclaration(text: string, to: nat, spelled: seq<Spelled>, gap: string)
    requires GoodDeclaration(spelled, gap) && StandsAt(text, 0, LooseDeclaration(spelled, gap))
    requires var n := |LooseDeclaration(spelled, gap)|; n <= to <= |text| && Blank(text, n, to)
    ensures AttributesOf(text, 0, to) == Some(EmplaceAll(map[], Attrs(spelled)))
  {
    hide *;
    var e := 5 + |SpellAttributes(spelled)|;
    DeclarationParts(text, spelled, gap);
    GoodParts(spelled, gap);
    NoLettersBehind(text, e, to, gap);
    AttributesOfIs(text, 0, to);
    BehindName(text, to);
    if spelled == [] {
      NothingSpelled();
      NoAttributesFrom(text, 5, to, Find(text, 0, to, EndsNamePart));
    } else {
      SpelledStart(spelled);
      CharAt(text, 5, SpellAttributes(spelled), 0);
      ReadAttributes(text, 5, 5, to, spelled, map[]);
    }
  }

  lemma GoodParts(spelled: seq<Spelled>, gap: string)
    requires GoodDeclaration(spelled, gap)
    ensures (forall a | a in spelled :: GoodSpelled(a)) && AllSpace(gap) && |gap + "?>"| > 0
    ensures spelled != [] ==> spelled[0] in spelled
  {
  }

  /** The declaration is the first token; behind it stand those of the pieces. */
  lemma MarksBehind(text: string, spelled: seq<Spelled>, gap: string, ps: seq<Piece>)
    requires GoodDeclaration(spelled, gap) && ValidPieces(ps)
    requires StandsAt(text, 0, LooseDeclaration(spelled, gap))
    requires PiecesAt(text, |LooseDeclaration(spelled, gap)|, ps)
    ensures Cleaned(text) == Some([0] + Starts(ps, |LooseDeclaration(spelled, gap)|))
  {
    hide LooseDeclaration, GoodDeclaration, ValidPieces, PiecesAt, StandsAt, Starts, Collapse, Tidy, Solid, OnMark, Blank,
      AllSpace;
    var p := |LooseDeclaration(spelled, gap)|;
    AtStart(text);
    DeclarationStands(text, spelled, gap);
    MarksOfPieces(text, p, ps);
    assert 0 + p == p;
    SolidStep(text, 0, LooseDeclaration(spelled, gap));
    CleanedIs(text);
    StartsHead(text, p, ps);
    NoComment(text, Starts(ps, p)[0]);
  }

  lemma NoComment(text: string, to: nat)
    requires At(text, 1) == '?'
    ensures DetermineToken(text, 0, to) != Comment
  {
  }

  /**
   A document with a declaration, however it is spelled, parses to what it parses to without, and what is declared
   is read back.
   */
  lemma LooselyDeclared(spelled: seq<Spelled>, gap: string, ps: seq<Piece>, tag: Piece, inner: seq<Piece>, replace: bool)
    requires GoodDeclaration(spelled, gap)
    requires tag.OpenTag? && !("?" <= tag.name)
    requires ValidPieces(ps) && Essence(ps) == [tag] + inner
    ensures Parse(LooseDeclaration(spelled, gap) + RenderAll(ps), replace) == Parse(RenderAll(ps), replace)
    ensures DeclarationOf(LooseDeclaration(spelled, gap) + RenderAll(ps)) == InfoOf(EmplaceAll(map[], Attrs(spelled)))
  {
    hide *;
    var declaration := LooseDeclaration(spelled, gap);
    var text, p := declaration + RenderAll(ps), |declaration|;
    ParseOfPieces(ps, tag, inner, replace);
    Concatenated(declaration, RenderAll(ps));
    RenderedPiecesStand(text, p, ps);
    DeclarationStands(text, spelled, gap);
    MarksBehind(text, spelled, gap, ps);
    StartsHead(text, p, ps);
    ReadDeclaration(text, Starts(ps, p)[0], spelled, gap);
    var q, rest := LeadingLayout(text, p, ps);
    EssenceCons(rest, tag, inner);
    RootTag(text, q, rest);
    BuildPieces(text, q, rest, inner, replace);
    RootIsOpen(tag);
    ParseBehind(text, Starts(ps, p), Starts(rest, q), RunPieces(Running([RootElement(tag)]), inner, replace), replace);
  }

  /** A printed declaration in front of a document: its values are read back, and nothing where nothing is declared. */
  lemma DeclaredDocument(info: Info, ps: seq<Piece>, tag: Piece, inner: seq<Piece>, replace: bool)
    requires GoodInfo(info)
    requires tag.OpenTag? && !("?" <= tag.name)
    requires ValidPieces(ps) && Essence(ps) == [tag] + inner
    ensures Parse(DeclarationText(info) + RenderAll(ps), replace) == Parse(RenderAll(ps), replace)
    ensures DeclarationOf(DeclarationText(info) + RenderAll(ps)) == info
  {
    hide *;
    if info == NO_INFO {
      Undeclared(info, RenderAll(ps));
      NothingDeclared(ps, tag, inner);
    } else {
      PrintedIsLoose(info);
      LooselyDeclared(Spell(Declared(info)), " ", ps, tag, inner, replace);
      InfoReadBack(info);
    }
  }

  lemma Concatenated(a: string, b: string)
    ensures |a| <= |a + b| && (a + b)[|a|..] == b && StandsAt(a + b, 0, a)
  {
  }

  lemma Undeclared(info: Info, tree: string)
    requires info == NO_INFO
    ensures DeclarationText(info) + tree == tree
  {
  }

  /** A document that begins with its root declares nothing. */
  lemma NothingDeclared(ps: seq<Piece>, tag: Piece, inner: seq<Piece>)
    requires tag.OpenTag? && !("?" <= tag.name)
    requires ValidPieces(ps) && Essence(ps) == [tag] + inner
    ensures DeclarationOf(RenderAll(ps)) == NO_INFO
  {
    hide *;
    var text := RenderAll(ps);
    Concatenated("", text);
    assert "" + text == text;
    AtStart(text);
    RenderedPiecesStand(text, 0, ps);
    MarksOfPieces(text, 0, ps);
    var q, rest := LeadingLayout(text, 0, ps);
    EssenceCons(rest, tag, inner);
    RootTag(text, q, rest);
    CleanedIs(text);
    NothingAhead(text, Starts(rest, q));
  }

  lemma NothingAhead(text: string, marks: seq<nat>)
    requires Cleaned(text) == Some(marks) && |marks| >= 2 && At(text, marks[0] + 1) != '?'
    ensures DeclarationOf(text) == NO_INFO
  {
  }

  /** The constructor of a document on a text whose first token is a declaration. */
  lemma ParseBehind(text: string, behind: seq<nat>, marks: seq<nat>, b: Build, replace: bool)
    requires behind != [] && Cleaned(text) == Some([0] + behind)
    requires At(text, 0) == '<' && At(text, 1) == '?' && AttributesOf(text, 0, behind[0]).Some?
    requires DropLeadingComments(text, behind) == Some(marks) && |marks| >= 2
    requires Finish(BuildTree(text, marks, replace)) == OutcomeOf(b)
    ensures Parse(text, replace) == OutcomeOf(b)
    ensures DeclarationOf(text) == InfoOf(AttributesOf(text, 0, behind[0]).value)
  {
    hide BuildTree, Cleaned, OutcomeOf, AttributesOf, DropLeadingComments, InfoOf, Finish;
    var all := [0] + behind;
    assert all[0] == 0 && all[1] == behind[0] && all[1..] == behind;
  }

  /**
   Parsing undoes printing for whole documents: what is declared always comes back, and the tree does exactly
   when no element has content that is blank but not empty.
   */
  lemma DocumentRoundTrip(info: Info, root: Element, text: string)
    requires PrintsDocument(text, info, root)
    requires GoodInfo(info) && Readable(root) && Clean(root) && !("?" <= root.name)
    ensures CString(text) == text && DeclarationOf(text) == info
    ensures Parse(text, true) == Parsed(root) <==> NoBlankContent(root)
  {
    hide *;
    var tree := TreeOf(text, info, root);
    RoundTrip(root, tree);
    ParseAnyOrder(root, tree, true);
    var ps, tag, inner := PiecesOfTree(root, tree);
    DeclaredDocument(info, ps, tag, inner, true);
    NoNul(info, tree);
    CStringWhole(text);
  }

  lemma TreeOf(text: string, info: Info, root: Element) returns (tree: string)
    requires PrintsDocument(text, info, root)
    ensures Prints(tree, root) && text == DeclarationText(info) + tree
  {
    hide Prints, DeclarationText;
    tree :| Prints(tree, root) && text == DeclarationText(info) + tree;
  }

  lemma NoNul(info: Info, tree: string)
    requires GoodInfo(info) && NUL !in tree
    ensures NUL !in DeclarationText(info) + tree
  {
    hide PrintAttributes, Declared;
    DeclaredIsGood(info);
  }

  lemma PiecesOfTree(root: Element, tree: string) returns (ps: seq<Piece>, tag: Piece, inner: seq<Piece>)
    requires Prints(tree, root) && Readable(root) && !("?" <= root.name)
    ensures tag.OpenTag? && !("?" <= tag.name)
    ensures ValidPieces(ps) && Essence(ps) == [tag] + inner && RenderAll(ps) == tree
  {
    hide WellNamed, Readable, HasDistinctKeys, ValidPieces, Essence, RenderAll, PiecesOf, BodyPieces, Print;
    var t :| Unordered(t) == root && HasDistinctKeys(t) && tree == Print(t);
    ReadableIsWellNamed(t);
    PiecesTagged(t);
    PrintIsRendered(t);
    RootFirst(t);
    ps, tag := PiecesOf(t), OpenTag(t.name, t.attrs, IsSingle(t));
    inner := if IsSingle(t) then [] else Essence(BodyPieces(t));
  }
}
