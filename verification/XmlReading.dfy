/** What the parser reads from the token of one piece, and the stack machine over pieces. */
module XmlReading {
  import opened Text
  import opened XmlTags
  import opened XmlScan
  import opened XmlTree
  import opened XmlPieces
  import Entities

  // ----- reading one tag -----

  lemma StandsSlice(text: string, p: nat, s: string)
    requires StandsAt(text, p, s)
    ensures Slice(text, p, p + |s|) == s
  {
  }

  /** Where the parts of one attribute stand, written at position `j`. */
  lemma SpelledParts(text: string, j: nat, a: Spelled)
    requires StandsAt(text, j, SpellAttribute(a))
    ensures var key := j + |a.gap|;
      var keyEnd := key + |a.key|;
      var valueEnd := keyEnd + 2 + |a.value|;
      && StandsAt(text, j, a.gap) && StandsAt(text, key, a.key) && StandsAt(text, keyEnd, "=")
      && StandsAt(text, keyEnd + 1, [a.quote]) && StandsAt(text, keyEnd + 2, a.value)
      && StandsAt(text, valueEnd, [a.quote]) && valueEnd + 1 == j + |SpellAttribute(a)|
  {
    var q := [a.quote];
    assert SpellAttribute(a) == a.gap + (a.key + ("=" + (q + (a.value + q))));
    StandsSplit(text, j, a.gap, a.key + ("=" + (q + (a.value + q))));
    StandsSplit(text, j + |a.gap|, a.key, "=" + (q + (a.value + q)));
    StandsSplit(text, j + |a.gap| + |a.key|, "=", q + (a.value + q));
    StandsSplit(text, j + |a.gap| + |a.key| + 1, q, a.value + q);
    StandsSplit(text, j + |a.gap| + |a.key| + 2, a.value, q);
  }

  /** The parts of one attribute, found where `AttributesFrom` looks for them. */
  lemma ReadAttribute(text: string, i: nat, j: nat, to: nat, a: Spelled)
    requires GoodSpelled(a) && StandsAt(text, j, SpellAttribute(a))
    requires i == j || (i + 1 == j && !IsAlpha(At(text, i)))
    requires j + |SpellAttribute(a)| <= to <= |text|
    ensures var key := j + |a.gap|;
      var keyEnd := key + |a.key|;
      var valueEnd := keyEnd + 2 + |a.value|;
      && Find(text, i, to, IsAlpha) == key
      && Find(text, key, to, Is('=')) == keyEnd
      && At(text, keyEnd + 1) == a.quote
      && Find(text, keyEnd + 2, to, Is(a.quote)) == valueEnd
      && Slice(text, key, keyEnd) == a.key
      && Slice(text, keyEnd + 2, valueEnd) == a.value
      && valueEnd + 1 == j + |SpellAttribute(a)| && At(text, valueEnd) == a.quote && key < to
  {
    hide SpellAttribute, NoMarkup, StandsAt, At, Find, Slice, Is, AllSpace, IsAlpha, IsSpace;
    var key := j + |a.gap|;
    var keyEnd := key + |a.key|;
    SpelledParts(text, j, a);
    CharAt(text, key, a.key, 0);
    GapHasNoLetter(text, j, a.gap);
    FindIs(text, i, to, IsAlpha, key);
    CharAt(text, keyEnd, "=", 0);
    CharAt(text, keyEnd + 1, [a.quote], 0);
    CharAt(text, keyEnd + 2 + |a.value|, [a.quote], 0);
    StandsSlice(text, key, a.key);
    StandsSlice(text, keyEnd + 2, a.value);
    FindBehind(text, key, to, a.key, '=');
    FindBehind(text, keyEnd + 2, to, a.value, a.quote);
  }

  lemma GapHasNoLetter(text: string, j: nat, gap: string)
    requires StandsAt(text, j, gap) && AllSpace(gap)
    ensures forall k | j <= k < j + |gap| :: !IsAlpha(At(text, k))
  {
    forall k | j <= k < j + |gap|
      ensures !IsAlpha(At(text, k))
    {
      assert text[j + (k - j)] == gap[k - j];
    }
  }

  /** A search for a character that does not occur in `s` ends behind `s`. */
  lemma FindBehind(text: string, p: nat, to: nat, s: string, c: char)
    requires StandsAt(text, p, s) && p + |s| < to
    requires At(text, p + |s|) == c && forall k | 0 <= k < |s| :: s[k] != c
    ensures Find(text, p, to, Is(c)) == p + |s|
  {
    forall k | p <= k < p + |s|
      ensures !Is(c)(At(text, k))
    {
      assert text[p + (k - p)] == s[k - p];
    }
    FindIs(text, p, to, Is(c), p + |s|);
  }

  /** One turn of the loop over the attributes. */
  lemma AttributeStep(text: string, i: nat, j: nat, to: nat, a: Spelled, found: Attributes)
    requires GoodSpelled(a) && StandsAt(text, j, SpellAttribute(a))
    requires i == j || (i + 1 == j && !IsAlpha(At(text, i)))
    requires j + |SpellAttribute(a)| < to <= |text|
    ensures |SpellAttribute(a)| > 0 && At(text, j + |SpellAttribute(a)| - 1) == a.quote
    ensures AttributesFrom(text, i, to, found)
         == AttributesFrom(text, j + |SpellAttribute(a)| - 1, to, Emplace(found, a.key, a.value))
  {
    hide *;
    ReadAttribute(text, i, j, to, a);
    AttributesTurn(text, i, to, found);
  }

  /** All attributes of a tag, behind which no letter follows inside the token. */
  lemma {:induction false} ReadAttributes(text: string, i: nat, j: nat, to: nat, spelled: seq<Spelled>, found: Attributes)
    requires (forall a | a in spelled :: GoodSpelled(a)) && StandsAt(text, j, SpellAttributes(spelled))
    requires i == j || (i + 1 == j && !IsAlpha(At(text, i)))
    requires j + |SpellAttributes(spelled)| < to <= |text|
    requires forall k | j + |SpellAttributes(spelled)| <= k < to :: !IsAlpha(At(text, k))
    ensures AttributesFrom(text, i, to, found) == Some(EmplaceAll(found, Attrs(spelled)))
    decreases |spelled|
  {
    hide *;
    if spelled == [] {
      NothingSpelled();
      ReadNoAttributes(text, i, j, to, found);
    } else {
      var a := spelled[0];
      var next := j + |SpellAttribute(a)|;
      AttributesCons(text, j, spelled, found);
      AttributeStep(text, i, j, to, a, found);
      QuoteIsNoLetter(a);
      ReadAttributes(text, next - 1, next, to, spelled[1..], Emplace(found, a.key, a.value));
    }
  }

  lemma NothingSpelled()
    ensures SpellAttributes([]) == "" && Attrs([]) == []
  {
  }

  lemma QuoteIsNoLetter(a: Spelled)
    requires GoodSpelled(a)
    ensures !IsAlpha(a.quote)
  {
  }

  lemma ReadNoAttributes(text: string, i: nat, j: nat, to: nat, found: Attributes)
    requires i == j || (i + 1 == j && !IsAlpha(At(text, i)))
    requires i < to && forall k | j <= k < to :: !IsAlpha(At(text, k))
    ensures AttributesFrom(text, i, to, found) == Some(EmplaceAll(found, []))
  {
    FindIs(text, i, to, IsAlpha, to);
  }

  lemma AttributesCons(text: string, j: nat, spelled: seq<Spelled>, found: Attributes)
    requires spelled != [] && (forall a | a in spelled :: GoodSpelled(a)) && StandsAt(text, j, SpellAttributes(spelled))
    ensures GoodSpelled(spelled[0]) && forall a | a in spelled[1..] :: GoodSpelled(a)
    ensures |SpellAttributes(spelled)| == |SpellAttribute(spelled[0])| + |SpellAttributes(spelled[1..])|
    ensures StandsAt(text, j, SpellAttribute(spelled[0]))
    ensures StandsAt(text, j + |SpellAttribute(spelled[0])|, SpellAttributes(spelled[1..]))
    ensures EmplaceAll(found, Attrs(spelled))
         == EmplaceAll(Emplace(found, spelled[0].key, spelled[0].value), Attrs(spelled[1..]))
  {
    hide GoodSpelled, SpellAttribute, StandsAt;
    StandsSplit(text, j, SpellAttribute(spelled[0]), SpellAttributes(spelled[1..]));
    var first := (spelled[0].key, spelled[0].value);
    assert ([first] + Attrs(spelled[1..]))[1..] == Attrs(spelled[1..]);
  }

  lemma {:induction false} AttributesEnd(spelled: seq<Spelled>)
    requires spelled != [] && forall a | a in spelled :: GoodSpelled(a)
    ensures var s := SpellAttributes(spelled);
      s != "" && s[|s| - 1] != '/'
  {
    if |spelled| == 1 {
      assert GoodSpelled(spelled[0]);
      assert SpellAttributes(spelled) == SpellAttribute(spelled[0]) + "";
    } else {
      AttributesEnd(spelled[1..]);
    }
  }

  lemma FourParts(a: string, b: string, c: string, d: string)
    ensures a + b + c + d == a + (b + (c + d))
  {
  }

  /** The text of a tag taken apart. */
  lemma TagParts(text: string, p: nat, piece: Piece)
    requires piece.LooseTag? && ValidPiece(piece) && StandsAt(text, p, Render(piece))
    ensures GoodName(piece.name) && (forall a | a in piece.spelled :: GoodSpelled(a)) && AllSpace(piece.gap)
    ensures piece.single && piece.name == "" && piece.spelled == [] ==> piece.gap != ""
    ensures var attributes, tail := SpellAttributes(piece.spelled), TagTail(piece.gap, piece.single);
      var i := p + 1 + |piece.name|;
      && StandsAt(text, p, "<") && StandsAt(text, p + 1, piece.name)
      && StandsAt(text, i, attributes) && StandsAt(text, i + |attributes|, tail)
      && |tail| > 0 && |Render(piece)| == 1 + |piece.name| + |attributes| + |tail|
  {
    hide SpellAttributes, StandsAt, GoodName, GoodSpelled, AllSpace;
    var attributes, tail := SpellAttributes(piece.spelled), TagTail(piece.gap, piece.single);
    FourParts("<", piece.name, attributes, tail);
    assert Render(piece) == "<" + (piece.name + (attributes + tail));
    StandsSplit(text, p, "<", piece.name + (attributes + tail));
    StandsSplit(text, p + 1, piece.name, attributes + tail);
    StandsSplit(text, p + 1 + |piece.name|, attributes, tail);
  }

  /** The name ends where white space or the end of the tag begins. */
  lemma ReadName(text: string, p: nat, to: nat, name: string)
    requires GoodName(name) && StandsAt(text, p, "<") && StandsAt(text, p + 1, name)
    requires p + 1 + |name| < to <= |text| && EndsName(At(text, p + 1 + |name|))
    ensures ExtractName(text, p, to) == name
    ensures Find(text, p, to, EndsNamePart) >= p + 1 + |name|
    ensures EndsNamePart(At(text, p + 1 + |name|)) ==> Find(text, p, to, EndsNamePart) == p + 1 + |name|
  {
    var i := p + 1 + |name|;
    assert text[p + 0] == "<"[0];
    forall k | p + 1 <= k < i
      ensures !EndsName(At(text, k))
    {
      assert text[p + 1 + (k - p - 1)] == name[k - p - 1];
    }
    FindIs(text, p + 1, to, EndsName, i);
    StandsSlice(text, p + 1, name);
    if EndsNamePart(At(text, i)) {
      FindIs(text, p, to, EndsNamePart, i);
    }
  }

  lemma NoLettersAtEnd(text: string, e: nat, to: nat, gap: string, single: bool)
    requires AllSpace(gap) && StandsAt(text, e, TagTail(gap, single))
    requires e + |TagTail(gap, single)| <= to && Blank(text, e + |TagTail(gap, single)|, to)
    ensures forall k | e <= k < to :: !IsAlpha(At(text, k))
  {
    var tail := TagTail(gap, single);
    forall k | e <= k < to
      ensures !IsAlpha(At(text, k))
    {
      if k < e + |tail| {
        assert text[e + (k - e)] == tail[k - e];
      } else {
        assert IsSpace(At(text, k));
      }
    }
  }

  /** Behind the name stands the white space of the first attribute or the end of the tag. */
  lemma TagBorder(text: string, i: nat, piece: Piece)
    requires piece.LooseTag? && ValidPiece(piece)
    requires StandsAt(text, i, SpellAttributes(piece.spelled))
    requires StandsAt(text, i + |SpellAttributes(piece.spelled)|, TagTail(piece.gap, piece.single))
    ensures EndsName(At(text, i)) && (piece.spelled != [] ==> IsSpace(At(text, i)))
  {
    hide StandsAt, SpellAttributes;
    SpelledStart(piece.spelled);
    if piece.spelled == [] {
      CharAt(text, i, TagTail(piece.gap, piece.single), 0);
    } else {
      CharAt(text, i, SpellAttributes(piece.spelled), 0);
    }
  }

  /** Name and attributes of a tag, however it is spelled. */
  lemma ReadLoose(text: string, p: nat, to: nat, piece: Piece)
    requires piece.LooseTag? && ValidPiece(piece) && StandsAt(text, p, Render(piece))
    requires p + |Render(piece)| <= to <= |text| && Blank(text, p + |Render(piece)|, to)
    ensures ExtractName(text, p, to) == piece.name
    ensures AttributesOf(text, p, to) == Some(EmplaceAll(map[], Attrs(piece.spelled)))
  {
    hide *;
    TagParts(text, p, piece);
    var i := p + 1 + |piece.name|;
    var e := i + |SpellAttributes(piece.spelled)|;
    TagBorder(text, i, piece);
    ReadName(text, p, to, piece.name);
    NoLettersAtEnd(text, e, to, piece.gap, piece.single);
    AttributesOfIs(text, p, to);
    if piece.spelled == [] {
      NothingSpelled();
      NoAttributesFrom(text, i, to, Find(text, p, to, EndsNamePart));
    } else {
      SpaceEndsName(At(text, i));
      ReadAttributes(text, i, i, to, piece.spelled, map[]);
    }
  }

  lemma SpaceEndsName(c: char)
    ensures IsSpace(c) ==> EndsNamePart(c)
  {
  }

  lemma NoAttributesFrom(text: string, i: nat, to: nat, from: nat)
    requires i <= from && forall k | i <= k < to :: !IsAlpha(At(text, k))
    ensures AttributesFrom(text, from, to, map[]) == Some(EmplaceAll(map[], []))
  {
    if from < to {
      FindIs(text, from, to, IsAlpha, to);
    }
  }

  /** The tag as the printer writes it, its attributes in the same order; closing names are not looked at. */
  function Canonical(piece: Piece): Piece {
    match piece
    case LooseTag(name, spelled, _, single) => OpenTag(name, Attrs(spelled), single)
    case CloseTag(_) => CloseTag("")
    case _ => piece
  }

  /** Name and attributes of any tag. */
  lemma ReadTag(text: string, p: nat, to: nat, piece: Piece)
    requires Canonical(piece).OpenTag? && ValidPiece(piece) && StandsAt(text, p, Render(piece))
    requires p + |Render(piece)| <= to <= |text| && Blank(text, p + |Render(piece)|, to)
    ensures ExtractName(text, p, to) == Canonical(piece).name
    ensures AttributesOf(text, p, to) == Some(EmplaceAll(map[], Canonical(piece).attrs))
  {
    hide ValidPiece, Render, StandsAt, ExtractName, AttributesOf, EmplaceAll, Attrs, Blank;
    LooseIsSame(piece);
    ReadLoose(text, p, to, Loose(piece));
  }

  lemma AttributesOfIs(text: string, from: nat, to: nat)
    ensures AttributesOf(text, from, to) == AttributesFrom(text, Find(text, from, to, EndsNamePart), to, map[])
  {
  }

  function KindOf(piece: Piece): Token
    requires !piece.Space?
  {
    match Canonical(piece)
    case OpenTag(_, _, single) => if single then OpenClose else Open
    case CloseTag(_) => Close
    case Chars(_) => Content
    case Note(_) => Comment
    case Torn(_) => Error
  }

  /** The character in front of the '>' decides whether an opening tag closes itself. */
  lemma BeforeTagEnd(text: string, p: nat, piece: Piece)
    requires piece.LooseTag? && ValidPiece(piece) && StandsAt(text, p, Render(piece))
    ensures |Render(piece)| >= 2
    ensures At(text, p + 1) != '/'
    ensures At(text, p + |Render(piece)| - 2) == '/' <==> piece.single
  {
    hide StandsAt, SpellAttributes, ValidPiece, Render;
    var name, attributes, gap := piece.name, SpellAttributes(piece.spelled), piece.gap;
    TagParts(text, p, piece);
    SpelledStart(piece.spelled);
    var i := p + 1 + |name|;
    var e := i + |attributes|;
    CharAt(text, p, "<", 0);
    if name != "" {
      CharAt(text, p + 1, name, 0);
      CharAt(text, p + 1, name, |name| - 1);
    } else if piece.spelled != [] {
      CharAt(text, i, attributes, 0);
    } else {
      CharAt(text, e, TagTail(gap, piece.single), 0);
    }
    if piece.single {
      CharAt(text, e, TagTail(gap, true), |gap|);
    } else if gap != "" {
      CharAt(text, e, TagTail(gap, false), |gap| - 1);
    } else if piece.spelled != [] {
      AttributesEnd(piece.spelled);
      CharAt(text, i, attributes, |attributes| - 1);
    }
  }

  lemma ReadKind(text: string, p: nat, to: nat, piece: Piece)
    requires ValidPiece(piece) && !piece.Space? && StandsAt(text, p, Render(piece))
    requires p + |Render(piece)| <= to <= |text| && (piece.Torn? ==> to == p + |Render(piece)|)
    ensures DetermineToken(text, p, to) == KindOf(piece)
  {
    var s := Render(piece);
    match piece
    case Note(body) =>
      NotePosition(text, p, body);
    case Chars(_) =>
      PieceIsSolid(piece);
      assert text[p] == s[0];
    case CloseTag(_) =>
      assert text[p] == s[0] && text[p + 1] == s[1];
    case Torn(rest) =>
      TagIsNoNote(text, p, piece);
      assert text[p] == s[0] && text[p + 1] == s[1];
      forall k | p <= k < to
        ensures !Is('>')(At(text, k))
      {
        assert text[p + (k - p)] == s[k - p];
      }
      FindIs(text, p, to, Is('>'), to);
    case LooseTag(_, _, _, _) => ReadLooseKind(text, p, to, piece);
    case OpenTag(_, _, _) =>
      LooseIsSame(piece);
      ReadLooseKind(text, p, to, Loose(piece));
  }

  lemma ReadLooseKind(text: string, p: nat, to: nat, piece: Piece)
    requires piece.LooseTag? && ValidPiece(piece) && StandsAt(text, p, Render(piece))
    requires p + |Render(piece)| <= to <= |text|
    ensures DetermineToken(text, p, to) == if piece.single then OpenClose else Open
  {
    hide ValidPiece, Render, Solid;
    var s := Render(piece);
    LooseIsSolid(piece);
    TagIsNoNote(text, p, piece);
    BeforeTagEnd(text, p, piece);
    SolidInside(s);
    var last := p + (|s| - 1);
    assert text[p + 0] == s[0] && text[last] == s[|s| - 1];
    forall k | p <= k < last
      ensures !Is('>')(At(text, k))
    {
      assert text[p + (k - p)] == s[k - p];
    }
    FindIs(text, p, to, Is('>'), last);
  }

  lemma SolidInside(s: string)
    requires Solid(s)
    ensures s != "" && forall k | 0 <= k < |s| - 1 :: s[k] != '>'
  {
  }

  // ----- the stack machine over pieces -----

  function StepPiece(b: Build, piece: Piece, replace: bool): Build
    requires b.Running? && b.stack != []
  {
    match Canonical(piece)
    case OpenTag(name, attrs, single) =>
      var grown := b.stack + [Element(name, "", EmplaceAll(map[], attrs), [])];
      if single then Pop(grown) else Running(grown)
    case Torn(_) => Failed
    case CloseTag(_) => Pop(b.stack)
    case Chars(text) => WithTop(b.stack, AddContent(b.stack[|b.stack| - 1], text, replace))
    case _ => b
  }

  function RunPieces(b: Build, ps: seq<Piece>, replace: bool): Build
    requires IsRunning(b)
    decreases |ps|
  {
    if ps == [] || !b.Running? then b
    else RunPieces(StepPiece(b, ps[0], replace), ps[1..], replace)
  }

  lemma CharsAreTheirText(piece: Piece)
    requires piece.Chars?
    ensures Render(piece) == piece.text
  {
  }

  /** The token of a piece does to the stack what the piece stands for. */
  lemma StepOfPiece(b: Build, text: string, p: nat, to: nat, piece: Piece, replace: bool)
    requires b.Running? && b.stack != []
    requires ValidPiece(piece) && !piece.Space? && StandsAt(text, p, Render(piece))
    requires p + |Render(piece)| <= to <= |text| && Blank(text, p + |Render(piece)|, to)
    requires piece.Chars? || piece.Torn? ==> to == p + |Render(piece)|
    ensures Step(b, text, p, to, replace) == StepPiece(b, piece, replace)
  {
    hide DetermineToken, StandsAt, AttributesOf, ExtractName, ValidPiece, Render, EmplaceAll, Pop, AddContent, Blank;
    ReadKind(text, p, to, piece);
    match piece
    case OpenTag(_, _, _) => ReadTag(text, p, to, piece);
    case LooseTag(_, _, _, _) => ReadTag(text, p, to, piece);
    case Chars(s) =>
      CharsAreTheirText(piece);
      StandsSlice(text, p, s);
    case _ =>
  }

  /** The first token behind `p` begins behind the white space that may stand there. */
  lemma StartsHead(text: string, p: nat, ps: seq<Piece>)
    requires p <= |text| && PiecesAt(text, p, ps) && ValidPieces(ps)
    ensures Starts(ps, p) != []
    ensures p <= Starts(ps, p)[0] <= |text| && Blank(text, p, Starts(ps, p)[0])
    ensures ps == [] || !ps[0].Space? ==> Starts(ps, p)[0] == p
  {
    if ps != [] && ps[0].Space? {
      var q := p + |Render(ps[0])|;
      assert ValidPiece(ps[0]);
      forall k | p <= k < q
        ensures IsSpace(At(text, k))
      {
        assert text[p + (k - p)] == ps[0].text[k - p];
      }
      if |ps| > 1 {
        assert !IsLoose(ps[1]) && ps[1..][0] == ps[1];
      }
    }
  }

  /** Running over the tokens of a document is running over its pieces. */
  lemma {:induction false} RunOfPieces(b: Build, text: string, p: nat, ps: seq<Piece>, replace: bool)
    requires IsRunning(b)
    requires p <= |text| && ValidPieces(ps) && PiecesAt(text, p, ps)
    ensures Run(b, text, Starts(ps, p), replace) == RunPieces(b, ps, replace)
    decreases |ps|
  {
    hide Step, StepPiece, ValidPieces, ValidPiece, StandsAt, Render, Blank;
    if ps != [] && b.Running? {
      var q := p + |Render(ps[0])|;
      ValidTail(ps);
      PiecesInside(text, p, ps);
      StartsHead(text, q, ps[1..]);
      if ps[0].Space? {
        SpaceIsNothing(b, ps[0], replace);
        RunOfPieces(b, text, q, ps[1..], replace);
      } else {
        var rest := Starts(ps[1..], q);
        StepOfPiece(b, text, p, rest[0], ps[0], replace);
        StepKeepsRunning(b, ps[0], replace);
        RunOfPieces(StepPiece(b, ps[0], replace), text, q, ps[1..], replace);
        RunCons(b, text, p, rest, replace);
      }
    }
  }

  lemma RunCons(b: Build, text: string, p: nat, rest: seq<nat>, replace: bool)
    requires b.Running? && b.stack != [] && rest != []
    ensures Run(b, text, [p] + rest, replace) == Run(Step(b, text, p, rest[0], replace), text, rest, replace)
  {
    assert ([p] + rest)[1..] == rest;
  }

  lemma SpaceIsNothing(b: Build, piece: Piece, replace: bool)
    requires b.Running? && b.stack != [] && (piece.Space? || piece.Note?)
    ensures StepPiece(b, piece, replace) == b
  {
  }

  lemma StepKeepsRunning(b: Build, piece: Piece, replace: bool)
    requires b.Running? && b.stack != []
    ensures IsRunning(StepPiece(b, piece, replace))
  {
  }

  /** The tags and the character data of a document, without its layout and without the layout inside its tags. */
  function Essence(ps: seq<Piece>): seq<Piece> {
    if ps == [] then []
    else if ps[0].Space? || ps[0].Note? then Essence(ps[1..])
    else [Canonical(ps[0])] + Essence(ps[1..])
  }

  lemma {:induction false} EssenceConcat(xs: seq<Piece>, ys: seq<Piece>)
    ensures Essence(xs + ys) == Essence(xs) + Essence(ys)
  {
    if xs == [] {
      assert xs + ys == ys;
    } else {
      assert (xs + ys)[1..] == xs[1..] + ys;
      EssenceConcat(xs[1..], ys);
    }
  }

  lemma CanonicalSteps(b: Build, piece: Piece, replace: bool)
    requires b.Running? && b.stack != []
    ensures StepPiece(b, Canonical(piece), replace) == StepPiece(b, piece, replace)
  {
  }

  /** White space between tags and inside of them, and comments anywhere, do not reach the tree. */
  lemma {:induction false} LayoutIsNothing(b: Build, ps: seq<Piece>, replace: bool)
    requires IsRunning(b)
    ensures RunPieces(b, ps, replace) == RunPieces(b, Essence(ps), replace)
    decreases |ps|
  {
    if ps != [] && b.Running? {
      if ps[0].Space? || ps[0].Note? {
        SpaceIsNothing(b, ps[0], replace);
        LayoutIsNothing(b, ps[1..], replace);
      } else {
        StepKeepsRunning(b, ps[0], replace);
        LayoutIsNothing(StepPiece(b, ps[0], replace), ps[1..], replace);
        CanonicalSteps(b, ps[0], replace);
        assert ([Canonical(ps[0])] + Essence(ps[1..]))[1..] == Essence(ps[1..]);
      }
    }
  }

  lemma {:induction false} RunConcat(b: Build, xs: seq<Piece>, ys: seq<Piece>, replace: bool)
    requires IsRunning(b)
    ensures IsRunning(RunPieces(b, xs, replace))
    ensures RunPieces(b, xs + ys, replace) == RunPieces(RunPieces(b, xs, replace), ys, replace)
    decreases |xs|
  {
    if xs == [] {
      assert xs + ys == ys;
    } else if b.Running? {
      assert (xs + ys)[1..] == xs[1..] + ys;
      StepKeepsRunning(b, xs[0], replace);
      RunConcat(StepPiece(b, xs[0], replace), xs[1..], ys, replace);
    }
  }
}
