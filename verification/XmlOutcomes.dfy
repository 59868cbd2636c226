/** What becomes of documents that are not well formed: unclosed, torn, or with more behind their root. */
module XmlOutcomes {
  import opened Text
  import opened XmlTags
  import opened XmlScan
  import opened XmlTree
  import opened XmlPieces
  import opened XmlReading
  import opened XmlRoundTrip

  /** The stack machine behind the tag of the root. */
  function After(tag: Piece, inner: seq<Piece>, replace: bool): Build
    requires tag.OpenTag?
  {
    RootIsOpen(tag);
    RunPieces(Running([RootElement(tag)]), inner, replace)
  }

  /** A document and what follows it. */
  lemma EssenceOn(xs: seq<Piece>, ys: seq<Piece>, tag: Piece, inner: seq<Piece>)
    requires Essence(xs) == [tag] + inner
    ensures Essence(xs + ys) == [tag] + (inner + Essence(ys))
  {
    EssenceConcat(xs, ys);
  }

  lemma AfterOn(tag: Piece, inner: seq<Piece>, more: seq<Piece>, replace: bool)
    requires tag.OpenTag?
    ensures IsRunning(After(tag, inner, replace))
    ensures After(tag, inner + more, replace) == RunPieces(After(tag, inner, replace), more, replace)
  {
    hide RunPieces, RootElement;
    RootIsOpen(tag);
    RunConcat(Running([RootElement(tag)]), inner, more, replace);
  }

  /** What stands behind the end of the root is ignored. */
  lemma IgnoredBehindRoot(ps: seq<Piece>, more: seq<Piece>, tag: Piece, inner: seq<Piece>, replace: bool)
    requires tag.OpenTag? && !("?" <= tag.name) && Essence(ps) == [tag] + inner
    requires ValidPieces(ps) && ValidPieces(ps + more)
    requires After(tag, inner, replace).Finished?
    ensures Parse(RenderAll(ps + more), replace) == Parse(RenderAll(ps), replace)
  {
    hide Parse, RenderAll, ValidPieces, Essence, RootElement, OutcomeOf;
    EssenceOn(ps, more, tag, inner);
    AfterOn(tag, inner, Essence(more), replace);
    ParseOfPieces(ps, tag, inner, replace);
    ParseOfPieces(ps + more, tag, inner + Essence(more), replace);
  }

  /** Closing tags may be missing at the end: a document parses to the same with one more of the open tags closed. */
  lemma ClosingMayBeMissing(ps: seq<Piece>, name: string, tag: Piece, inner: seq<Piece>, replace: bool)
    requires tag.OpenTag? && !("?" <= tag.name) && Essence(ps) == [tag] + inner
    requires ValidPieces(ps) && ValidPieces(ps + [CloseTag(name)])
    requires After(tag, inner, replace).Running?
    ensures Parse(RenderAll(ps + [CloseTag(name)]), replace) == Parse(RenderAll(ps), replace)
  {
    hide Parse, RenderAll, ValidPieces, RootElement, OutcomeOf, RunPieces, After;
    var b := After(tag, inner, replace);
    assert [CloseTag(name)][1..] == [];
    assert Essence([CloseTag(name)]) == [CloseTag("")];
    EssenceOn(ps, [CloseTag(name)], tag, inner);
    AfterOn(tag, inner, [CloseTag("")], replace);
    RunClose(b.stack, "", replace);
    ClosedIsSame(b.stack);
    AfterIs(tag, inner, replace);
    AfterIs(tag, inner + [CloseTag("")], replace);
    ParseOfPieces(ps, tag, inner, replace);
    ParseOfPieces(ps + [CloseTag(name)], tag, inner + [CloseTag("")], replace);
  }

  lemma AfterIs(tag: Piece, inner: seq<Piece>, replace: bool)
    requires tag.OpenTag?
    ensures IsRunning(Running([RootElement(tag)]))
    ensures After(tag, inner, replace) == RunPieces(Running([RootElement(tag)]), inner, replace)
    ensures IsRunning(After(tag, inner, replace))
  {
    AfterOn(tag, inner, [], replace);
  }

  lemma ClosedIsSame(stack: seq<Element>)
    requires stack != []
    ensures OutcomeOf(Pop(stack)) == OutcomeOf(Running(stack))
  {
  }

  /** A tag that is never closed makes a document malformed, whatever follows, unless the root has ended before it. */
  lemma TornIsMalformed(ps: seq<Piece>, rest: string, more: seq<Piece>, tag: Piece, inner: seq<Piece>, replace: bool)
    requires tag.OpenTag? && !("?" <= tag.name) && Essence(ps) == [tag] + inner
    requires ValidPieces(ps + ([Torn(rest)] + more))
    requires After(tag, inner, replace).Running?
    ensures Parse(RenderAll(ps + ([Torn(rest)] + more)), replace) == MalformedXml
  {
    hide Parse, RenderAll, ValidPieces, RootElement, After, RunPieces;
    var b, torn := After(tag, inner, replace), [Torn(rest)] + more;
    assert torn[1..] == more && Essence(torn) == [Torn(rest)] + Essence(more);
    EssenceOn(ps, torn, tag, inner);
    AfterOn(tag, inner, Essence(torn), replace);
    TornFails(b, rest, Essence(more), replace);
    AfterIs(tag, inner + Essence(torn), replace);
    ParseOfPieces(ps + torn, tag, inner + Essence(torn), replace);
  }

  lemma TornFails(b: Build, rest: string, more: seq<Piece>, replace: bool)
    requires b.Running? && IsRunning(b)
    ensures RunPieces(b, [Torn(rest)] + more, replace) == Failed
  {
    assert ([Torn(rest)] + more)[1..] == more;
    assert StepPiece(b, Torn(rest), replace) == Failed;
  }

  /** A document that begins with character data, behind white space and comments, is refused for its beginning. */
  lemma TextIsNoBeginning(ps: seq<Piece>, replace: bool)
    requires ValidPieces(ps) && Essence(ps) != [] && Essence(ps)[0].Chars?
    ensures Parse(RenderAll(ps), replace) == MalformedBeginning
  {
    hide *;
    var text := RenderAll(ps);
    AtStart(text);
    WholeText(text);
    RenderedPiecesStand(text, 0, ps);
    MarksOfPieces(text, 0, ps);
    var q, rest := LeadingLayout(text, 0, ps);
    FirstEssential(rest);
    CleanedIs(text);
    TextFirst(text, q, rest);
    Refused(text, Starts(rest, q), replace);
  }

  lemma WholeText(text: string)
    ensures text[0..] == text
  {
  }

  lemma FirstEssential(rest: seq<Piece>)
    requires rest != [] && !rest[0].Space? && !rest[0].Note?
    ensures Essence(rest) != [] && Essence(rest)[0] == Canonical(rest[0])
    ensures Essence(rest)[0].Chars? ==> rest[0].Chars?
  {
  }

  lemma TextFirst(text: string, q: nat, rest: seq<Piece>)
    requires rest != [] && rest[0].Chars? && ValidPieces(rest) && PiecesAt(text, q, rest)
    ensures var marks := Starts(rest, q);
      |marks| >= 2 && DropLeadingComments(text, marks) == Some(marks) && At(text, marks[0]) != '<'
  {
    hide StandsAt, Blank;
    ValidTail(rest);
    PiecesInside(text, q, rest);
    StartsHead(text, q + |Render(rest[0])|, rest[1..]);
    CharAt(text, q, rest[0].text, 0);
  }

  lemma Refused(text: string, marks: seq<nat>, replace: bool)
    requires Cleaned(text) == Some(marks) && |marks| >= 2 && At(text, marks[0]) != '<'
    ensures Parse(text, replace) == MalformedBeginning
  {
  }

  // ----- where the source leaves its text -----

  /** A key without a value in the tag of the root: the search for the value leaves the token. */
  lemma KeyWithoutValue(name: string, key: string, replace: bool)
    requires GoodName(name) && !("?" <= name)
    requires key != "" && IsAlpha(key[0]) && NoMarkup(key) && forall k | 0 <= k < |key| :: key[k] != '='
    ensures Parse("<" + name + " " + key + ">", replace) == OutOfBounds
  {
    hide *;
    var text := "<" + name + " " + key + ">";
    BareTag(name, key);
    AtStart(text);
    SolidStep(text, 0, text);
    NothingLeft(text);
    CleanedIs(text);
    BareAttributes(name, key);
    BareOutcome(text, replace);
  }

  lemma BareTag(name: string, key: string)
    requires GoodName(name) && !("?" <= name) && key != "" && NoMarkup(key)
    ensures var text := "<" + name + " " + key + ">";
      && text != "" && StandsAt(text, 0, text) && Solid(text) && !AllSpace(text)
      && OnMark(text, 0) && OnMark(text, |text|) && !IsCommentStart(text, 0)
      && At(text, 0) == '<' && At(text, 1) != '?'
  {
    var text := "<" + name + " " + key + ">";
    assert forall k | 0 <= k < |name| :: text[1 + k] == name[k];
    assert text[1 + |name|] == ' ';
    assert forall k | 0 <= k < |key| :: text[2 + |name| + k] == key[k];
    assert text[|text| - 1] == '>';
    assert !IsSpace(text[0]);
    if name != "" {
      assert text[1] == name[0];
    }
    if |name| >= 3 {
      assert text[1] == name[0] && text[2] == name[1] && text[3] == name[2];
    }
  }

  lemma BareAttributes(name: string, key: string)
    requires GoodName(name) && NoMarkup(key) && key != "" && IsAlpha(key[0])
    requires forall k | 0 <= k < |key| :: key[k] != '='
    ensures var text := "<" + name + " " + key + ">";
      AttributesOf(text, 0, |text|) == None
  {
    var text := "<" + name + " " + key + ">";
    var i := 1 + |name|;
    assert forall k | 0 <= k < |name| :: text[1 + k] == name[k];
    assert text[i] == ' ' && forall k | 0 <= k < |key| :: text[i + 1 + k] == key[k];
    assert text[|text| - 1] == '>';
    forall k | 0 <= k < i
      ensures !EndsNamePart(At(text, k))
    {
      if k > 0 {
        assert text[k] == name[k - 1];
      }
    }
    FindIs(text, 0, |text|, EndsNamePart, i);
    assert At(text, i + 1) == key[0];
    FindIs(text, i, |text|, IsAlpha, i + 1);
    forall k | i + 1 <= k < |text|
      ensures !Is('=')(At(text, k))
    {
      if k < |text| - 1 {
        assert text[i + 1 + (k - i - 1)] == key[k - i - 1];
      }
    }
    FindIs(text, i + 1, |text|, Is('='), |text|);
  }

  lemma BareOutcome(text: string, replace: bool)
    requires text != "" && Cleaned(text) == DropLeadingComments(text, [0] + [|text|])
    requires At(text, 0) == '<' && At(text, 1) != '?' && !IsCommentStart(text, 0)
    requires AttributesOf(text, 0, |text|) == None
    ensures Parse(text, replace) == OutOfBounds
  {
    hide AttributesOf, ExtractName, Run, Cleaned, DetermineToken, At, RootOf;
    var marks := [0] + [|text|];
    NotComment(text);
    assert DropLeadingComments(text, marks) == Some(marks);
    assert BuildTree(text, marks, replace) == Undefined;
  }

  lemma NotComment(text: string)
    requires !IsCommentStart(text, 0)
    ensures DetermineToken(text, 0, |text|) != Comment
  {
  }

  // ----- comments and attributes -----

  /** Where no comment ends, none is recognised: the passes leave all positions. */
  lemma {:induction false} NothingCollapses(text: string, marks: seq<nat>)
    requires forall i: nat :: !IsCommentEnd(text, i)
    ensures Collapse(text, marks) == marks
  {
    if |marks| > 1 {
      NothingCollapses(text, marks[1..]);
      assert marks == [marks[0]] + marks[1..];
    }
  }

  /** Of equal keys the first one counts. */
  lemma {:induction false} FirstKeyWins(found: Attributes, attrs: AttributeList, k: nat)
    requires k < |attrs| && attrs[k].0 !in found && forall i | 0 <= i < k :: attrs[i].0 != attrs[k].0
    ensures attrs[k].0 in EmplaceAll(found, attrs) && EmplaceAll(found, attrs)[attrs[k].0] == attrs[k].1
    decreases |attrs|
  {
    var next := Emplace(found, attrs[0].0, attrs[0].1);
    if k == 0 {
      KeptValue(next, attrs[1..], attrs[0].0);
    } else {
      assert forall i | 0 <= i < |attrs[1..]| :: attrs[1..][i] == attrs[i + 1];
      FirstKeyWins(next, attrs[1..], k - 1);
    }
  }

  lemma {:induction false} KeptValue(found: Attributes, attrs: AttributeList, key: string)
    requires key in found
    ensures key in EmplaceAll(found, attrs) && EmplaceAll(found, attrs)[key] == found[key]
    decreases |attrs|
  {
    if attrs != [] {
      KeptValue(Emplace(found, attrs[0].0, attrs[0].1), attrs[1..], key);
    }
  }

  // ----- documents without a root -----

  lemma {:induction false} OnlyLayout(text: string, p: nat, ps: seq<Piece>)
    requires p <= |text| && OnMark(text, p) && ValidPieces(ps) && PiecesAt(text, p, ps) && Essence(ps) == []
    ensures DropLeadingComments(text, Starts(ps, p)) == None
    decreases |ps|
  {
    hide *;
    if ps == [] {
      NoTokens(text, p);
    } else {
      NotEssential(ps);
      LeadingPiece(text, p, ps);
      OnlyLayout(text, p + |Render(ps[0])|, ps[1..]);
    }
  }

  lemma NoTokens(text: string, p: nat)
    ensures DropLeadingComments(text, Starts([], p)) == None
  {
  }

  lemma NotEssential(ps: seq<Piece>)
    requires ps != [] && Essence(ps) == []
    ensures ps[0].Space? || ps[0].Note?
  {
  }

  /** Of a document of white space and comments alone the source looks for a root behind the end of its list. */
  lemma NothingToParse(ps: seq<Piece>, replace: bool)
    requires ValidPieces(ps) && Essence(ps) == []
    ensures Parse(RenderAll(ps), replace) == OutOfBounds
  {
    hide *;
    var text := RenderAll(ps);
    AtStart(text);
    WholeText(text);
    RenderedPiecesStand(text, 0, ps);
    MarksOfPieces(text, 0, ps);
    OnlyLayout(text, 0, ps);
    CleanedIs(text);
    NoRoot(text, replace);
  }

  lemma NoRoot(text: string, replace: bool)
    requires Cleaned(text) == None
    ensures Parse(text, replace) == OutOfBounds
  {
  }
}
