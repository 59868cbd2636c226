/**
 Documents as sequences of lexical pieces. `MarksOfPieces` is the first half of the round trip: the four
 passes over the token list find exactly the pieces a document was put together from.
 */
module XmlPieces {
  import opened Text
  import opened XmlTags
  import opened XmlScan
  import opened XmlTree

  /** An attribute as somebody may spell it: white space in front, and either kind of quotes. */
  datatype Spelled = Spelled(gap: string, key: string, quote: char, value: string)

  /**
   `OpenTag` is a tag as the printer writes it, `LooseTag` one as others may, with white space `gap` before its end.
   `Torn` is a tag that is never closed.
   */
  datatype Piece =
    | OpenTag(name: string, attrs: AttributeList, single: bool)
    | LooseTag(name: string, spelled: seq<Spelled>, gap: string, single: bool)
    | Torn(rest: string)
    | CloseTag(name: string)
    | Chars(text: string)
    | Note(body: string)
    | Space(text: string)

  const COMMENT_START := "<!--"
  const COMMENT_END := "-->"

  function Render(p: Piece): string {
    match p
    case OpenTag(name, attrs, single) => TagText(name, PrintAttributes(attrs), single)
    case LooseTag(name, spelled, gap, single) => "<" + name + SpellAttributes(spelled) + TagTail(gap, single)
    case Torn(rest) => "<" + rest
    case CloseTag(name) => ClosingTag(name)
    case Chars(text) => text
    case Note(body) => COMMENT_START + body + COMMENT_END
    case Space(text) => text
  }

  function SpellAttribute(a: Spelled): string {
    a.gap + a.key + "=" + [a.quote] + a.value + [a.quote]
  }

  function SpellAttributes(spelled: seq<Spelled>): string {
    if spelled == [] then "" else SpellAttribute(spelled[0]) + SpellAttributes(spelled[1..])
  }

  function TagTail(gap: string, single: bool): string {
    gap + if single then "/>" else ">"
  }

  /** The attributes that are spelled. */
  function Attrs(spelled: seq<Spelled>): AttributeList {
    if spelled == [] then [] else [(spelled[0].key, spelled[0].value)] + Attrs(spelled[1..])
  }

  /** The attributes as the printer spells them. */
  function Spell(attrs: AttributeList): seq<Spelled> {
    if attrs == [] then [] else [Spelled(" ", attrs[0].0, '\"', attrs[0].1)] + Spell(attrs[1..])
  }

  /** A printed tag as one of the others. */
  function Loose(p: Piece): Piece
    requires p.OpenTag? || p.LooseTag?
  {
    match p
    case OpenTag(name, attrs, single) => LooseTag(name, Spell(attrs), if single then " " else "", single)
    case _ => p
  }

  lemma {:induction false} SpellIsPrint(attrs: AttributeList)
    ensures SpellAttributes(Spell(attrs)) == PrintAttributes(attrs) && Attrs(Spell(attrs)) == attrs
    ensures GoodAttributes(attrs) ==> forall a | a in Spell(attrs) :: GoodSpelled(a)
  {
    if attrs != [] {
      SpellIsPrint(attrs[1..]);
      var a, rest := Spelled(" ", attrs[0].0, '\"', attrs[0].1), Spell(attrs[1..]);
      assert ([a] + rest)[1..] == rest;
      assert SpellAttribute(a) == PrintAttribute(attrs[0]);
      assert attrs == [attrs[0]] + attrs[1..];
      if GoodAttributes(attrs) {
        assert GoodAttribute(attrs[0]);
        assert forall k | 0 <= k < |attrs[1..]| :: attrs[1..][k] == attrs[k + 1];
      }
    }
  }

  lemma LooseIsSame(p: Piece)
    requires p.OpenTag? || p.LooseTag?
    ensures Render(Loose(p)) == Render(p) && (ValidPiece(p) ==> ValidPiece(Loose(p)))
    ensures Loose(p).name == p.name && Loose(p).single == p.single
    ensures Attrs(Loose(p).spelled) == if p.OpenTag? then p.attrs else Attrs(p.spelled)
  {
    hide PrintAttributes, SpellAttributes, Spell, GoodName, GoodSpelled;
    if p.OpenTag? {
      SpellIsPrint(p.attrs);
      var tail := if p.single then " />" else ">";
      assert TagTail(if p.single then " " else "", p.single) == tail;
    }
  }

  function RenderAll(ps: seq<Piece>): string {
    if ps == [] then "" else Render(ps[0]) + RenderAll(ps[1..])
  }

  // ----- what may stand in a piece -----

  predicate NoMarkup(s: string) {
    forall k | 0 <= k < |s| :: s[k] != '<' && s[k] != '>'
  }

  /** An element name the parser reads back: it must not end early or look like a comment. */
  predicate GoodName(name: string) {
    && (forall k | 0 <= k < |name| :: !EndsName(name[k]) && name[k] != '<')
    && !("!--" <= name)
  }

  predicate GoodAttribute(attr: (string, string)) {
    && attr.0 != "" && IsAlpha(attr.0[0])
    && (forall k | 0 <= k < |attr.0| :: attr.0[k] != '=') && NoMarkup(attr.0)
    && (forall k | 0 <= k < |attr.1| :: attr.1[k] != '\"') && NoMarkup(attr.1)
  }

  /** Quotes of one kind around a value without them, and white space in front. */
  predicate GoodSpelled(a: Spelled) {
    && a.gap != "" && AllSpace(a.gap) && (a.quote == '\"' || a.quote == '\'')
    && a.key != "" && IsAlpha(a.key[0]) && (forall k | 0 <= k < |a.key| :: a.key[k] != '=') && NoMarkup(a.key)
    && (forall k | 0 <= k < |a.value| :: a.value[k] != a.quote) && NoMarkup(a.value)
  }

  predicate GoodAttributes(attrs: AttributeList) {
    forall k | 0 <= k < |attrs| :: GoodAttribute(attrs[k])
  }

  predicate EndFree(body: string) {
    forall k | 0 <= k < |body| :: !IsCommentEnd(body, k)
  }

  predicate ValidPiece(p: Piece) {
    match p
    case OpenTag(name, attrs, _) => GoodName(name) && GoodAttributes(attrs)
    case LooseTag(name, spelled, gap, single) =>
      && GoodName(name) && (forall a | a in spelled :: GoodSpelled(a)) && AllSpace(gap)
      && (single && name == "" && spelled == [] ==> gap != "")
    case Torn(rest) => NoMarkup(rest) && rest != "" && rest[0] != '/' && rest[0] != '!'
    case CloseTag(name) => NoMarkup(name)
    case Chars(text) => NoMarkup(text) && !AllSpace(text)
    case Note(body) => EndFree(body)
    case Space(text) => text != "" && AllSpace(text)
  }

  predicate IsLoose(p: Piece) {
    p.Chars? || p.Space?
  }

  /** Loose text behind such a piece would belong to it. */
  predicate IsUnended(p: Piece) {
    IsLoose(p) || p.Torn?
  }

  /** Every piece is in order and no two pieces of loose text meet. */
  predicate ValidPieces(ps: seq<Piece>) {
    && (forall k | 0 <= k < |ps| :: ValidPiece(ps[k]))
    && (forall k | 0 <= k < |ps| - 1 :: !(IsUnended(ps[k]) && IsLoose(ps[k + 1])))
  }

  // ----- where the pieces lie -----

  /** Text `s` stands in `text` at position `p`. */
  predicate StandsAt(text: string, p: nat, s: string) {
    p + |s| <= |text| && forall k | 0 <= k < |s| :: text[p + k] == s[k]
  }

  lemma StandsSplit(text: string, p: nat, a: string, b: string)
    requires StandsAt(text, p, a + b)
    ensures StandsAt(text, p, a) && StandsAt(text, p + |a|, b)
  {
    var s := a + b;
    assert forall k | 0 <= k < |a| :: s[k] == a[k];
    forall k | 0 <= k < |b|
      ensures text[p + |a| + k] == b[k]
    {
      assert text[p + (|a| + k)] == s[|a| + k];
    }
  }

  lemma CharAt(text: string, p: nat, s: string, k: nat)
    requires StandsAt(text, p, s) && k < |s|
    ensures p + k < |text| && At(text, p + k) == s[k]
  {
  }

  /** The pieces stand at `p` and reach to the end of the text. */
  predicate PiecesAt(text: string, p: nat, ps: seq<Piece>)
    decreases |ps|
  {
    if ps == [] then p == |text|
    else StandsAt(text, p, Render(ps[0])) && PiecesAt(text, p + |Render(ps[0])|, ps[1..])
  }

  lemma {:induction false} RenderedPiecesStand(text: string, p: nat, ps: seq<Piece>)
    requires p <= |text| && text[p..] == RenderAll(ps)
    ensures PiecesAt(text, p, ps)
    decreases |ps|
  {
    hide Render;
    if ps != [] {
      var first, rest := Render(ps[0]), RenderAll(ps[1..]);
      var q := p + |first|;
      SplitAt(text, p, first, rest);
      RenderedPiecesStand(text, q, ps[1..]);
    }
  }

  lemma SplitAt(text: string, p: nat, first: string, rest: string)
    requires p <= |text| && text[p..] == first + rest
    ensures StandsAt(text, p, first) && text[p + |first|..] == rest
  {
    assert |text| == p + |first| + |rest|;
    assert forall k | 0 <= k < |first| :: text[p + k] == text[p..][k] == first[k];
    assert text[p + |first|..] == text[p..][|first|..];
  }

  /** Where the tokens begin: at every piece but white space, and at the end of the text. */
  function Starts(ps: seq<Piece>, p: nat): seq<nat> {
    if ps == [] then [p]
    else
      var rest := Starts(ps[1..], p + |Render(ps[0])|);
      if ps[0].Space? then rest else [p] + rest
  }

  /** A token may begin here. */
  predicate OnMark(text: string, p: nat) {
    p == |text| || (p < |text| && IsMark(text, p))
  }

  /** Letters of a piece between its first and its last character never cut a token. */
  predicate Solid(s: string) {
    && s != ""
    && (forall k | 1 <= k < |s| :: s[k] != '<')
    && (forall k | 0 <= k < |s| - 1 :: s[k] != '>')
  }

  lemma PieceIsSolid(p: Piece)
    requires ValidPiece(p) && !p.Note?
    ensures Solid(Render(p))
    ensures IsLoose(p) ==> NoMarkup(Render(p))
    ensures !IsLoose(p) ==> Render(p)[0] == '<'
    ensures !IsUnended(p) ==> Render(p)[|Render(p)| - 1] == '>'
  {
    match p
    case OpenTag(name, attrs, single) =>
      LooseIsSame(p);
      LooseIsSolid(Loose(p));
    case LooseTag(_, _, _, _) => LooseIsSolid(p);
    case Torn(rest) =>
    case CloseTag(name) =>
    case Chars(text) =>
    case Space(text) =>
  }

  lemma {:induction false} SpelledNoMarkup(spelled: seq<Spelled>)
    requires forall a | a in spelled :: GoodSpelled(a)
    ensures NoMarkup(SpellAttributes(spelled))
  {
    if spelled != [] {
      assert GoodSpelled(spelled[0]);
      SpelledNoMarkup(spelled[1..]);
    }
  }

  lemma LooseIsSolid(p: Piece)
    requires p.LooseTag? && ValidPiece(p)
    ensures Solid(Render(p)) && Render(p)[0] == '<' && Render(p)[|Render(p)| - 1] == '>'
  {
    hide SpellAttributes, GoodSpelled;
    SpelledNoMarkup(p.spelled);
    var middle := p.name + SpellAttributes(p.spelled) + (p.gap + if p.single then "/" else "");
    assert Render(p) == "<" + middle + ">";
    assert NoMarkup(middle);
  }

  // ----- the four passes over one piece -----

  lemma {:induction false} RawSkip(text: string, from: nat, to: nat)
    requires from <= to <= |text|
    requires forall k | from <= k < to :: !IsMark(text, k)
    ensures RawMarks(text, from) == RawMarks(text, to)
    decreases (to as int) - (from as int)
  {
    if from < to {
      RawSkip(text, from + 1, to);
    }
  }

  lemma RawSolid(text: string, p: nat, s: string)
    requires StandsAt(text, p, s) && Solid(s) && OnMark(text, p)
    ensures RawMarks(text, p) == [p] + RawMarks(text, p + |s|)
  {
    forall k | p + 1 <= k < p + |s|
      ensures !IsMark(text, k)
    {
      assert text[k] == s[k - p] && text[k - 1] == s[k - 1 - p];
    }
    RawSkip(text, p + 1, p + |s|);
  }

  lemma RawHead(text: string, p: nat)
    requires p <= |text| && OnMark(text, p)
    ensures RawMarks(text, p) != [] && RawMarks(text, p)[0] == p
  {
  }

  /** What Gapless drops in front of its first position is white space. */
  lemma {:induction false} GaplessHead(text: string, marks: seq<nat>)
    requires marks != []
    ensures Gapless(text, marks) != [] && Blank(text, marks[0], Gapless(text, marks)[0])
    decreases |marks|
  {
    if |marks| > 1 && Blank(text, marks[0], marks[1]) {
      GaplessHead(text, marks[1..]);
    }
  }

  lemma {:induction false} RawAscends(text: string, p: nat)
    requires p <= |text|
    ensures RawMarks(text, p) != []
    ensures forall k | 0 <= k < |RawMarks(text, p)| :: p <= RawMarks(text, p)[k] <= |text|
    decreases |text| - p
  {
    if p < |text| {
      RawAscends(text, p + 1);
    }
  }

  lemma {:induction false} GaplessWithin(text: string, marks: seq<nat>, low: nat, high: nat)
    requires marks != [] && forall k | 0 <= k < |marks| :: low <= marks[k] <= high
    ensures Gapless(text, marks) != []
    ensures forall k | 0 <= k < |Gapless(text, marks)| :: low <= Gapless(text, marks)[k] <= high
    decreases |marks|
  {
    if |marks| > 1 {
      GaplessWithin(text, marks[1..], low, high);
    }
  }

  function Tidy(text: string, p: nat): seq<nat>
    requires p <= |text|
  {
    Gapless(text, RawMarks(text, p))
  }

  /** The tidied list from `q` on starts with the first position behind the white space at `q`. */
  lemma TidyHead(text: string, q: nat)
    requires q <= |text| && OnMark(text, q)
    ensures Tidy(text, q) != [] && q <= Tidy(text, q)[0] <= |text| && Blank(text, q, Tidy(text, q)[0])
  {
    RawHead(text, q);
    RawAscends(text, q);
    GaplessHead(text, RawMarks(text, q));
    GaplessWithin(text, RawMarks(text, q), q, |text|);
  }

  lemma {:induction false} ScanPlain(text: string, from: nat, to: nat)
    requires forall k | from <= k < to :: !IsCommentStart(text, k)
    ensures ScanToken(text, from, to) == Plain
    decreases (to as int) - (from as int)
  {
    if from < to {
      ScanPlain(text, from + 1, to);
    }
  }

  /** Tags and character data: one position, kept by every pass. */
  lemma SolidStep(text: string, p: nat, s: string)
    requires StandsAt(text, p, s) && Solid(s) && OnMark(text, p) && OnMark(text, p + |s|)
    requires !AllSpace(s) && !IsCommentStart(text, p)
    ensures Collapse(text, Tidy(text, p)) == [p] + Collapse(text, Tidy(text, p + |s|))
  {
    var q := p + |s|;
    RawSolid(text, p, s);
    RawHead(text, q);
    TidyHead(text, q);
    var next := Tidy(text, q);
    var bad :| 0 <= bad < |s| && !IsSpace(s[bad]);
    assert At(text, p + bad) == s[bad];
    assert !Blank(text, p, q);
    KeepFirst(text, p, RawMarks(text, q));
    forall k | p <= k < next[0]
      ensures !IsCommentStart(text, k)
    {
      if p < k < q {
        assert text[k] == s[k - p];
      } else if k >= q {
        assert IsSpace(At(text, k));
      }
    }
    ScanPlain(text, p, next[0]);
    CollapseFirst(text, p, next);
  }

  lemma KeepFirst(text: string, p: nat, marks: seq<nat>)
    requires marks != [] && !Blank(text, p, marks[0])
    ensures Gapless(text, [p] + marks) == [p] + Gapless(text, marks)
  {
    assert ([p] + marks)[1..] == marks;
  }

  lemma CollapseFirst(text: string, p: nat, marks: seq<nat>)
    requires marks != [] && ScanToken(text, p, marks[0]) != Opened
    ensures Collapse(text, [p] + marks) == [p] + Collapse(text, marks)
  {
    assert ([p] + marks)[1..] == marks;
  }

  /** White space: its position disappears. */
  lemma SpaceStep(text: string, p: nat, s: string)
    requires StandsAt(text, p, s) && Solid(s) && OnMark(text, p) && OnMark(text, p + |s|)
    requires AllSpace(s)
    ensures Tidy(text, p) == Tidy(text, p + |s|)
  {
    var q := p + |s|;
    RawSolid(text, p, s);
    RawHead(text, q);
    forall k | p <= k < q
      ensures IsSpace(At(text, k))
    {
      assert text[k] == s[k - p];
    }
    assert ([p] + RawMarks(text, q))[1..] == RawMarks(text, q);
  }

  // ----- comments -----

  /** A comment stands at `p`; `e` is the position of its end marker. */
  predicate NoteAt(text: string, p: nat, e: nat) {
    && p + 4 <= e && e + 3 <= |text|
    && IsCommentStart(text, p) && IsCommentEnd(text, e)
    && forall k | p + 4 <= k < e :: !IsCommentEnd(text, k)
  }

  lemma NotePosition(text: string, p: nat, body: string)
    requires EndFree(body) && StandsAt(text, p, Render(Note(body)))
    ensures NoteAt(text, p, p + 4 + |body|)
  {
    hide StandsAt, EndFree, Render, IsCommentStart, IsCommentEnd;
    NoteParts(text, p, body);
    var e := p + 4 + |body|;
    StartMarker(text, p);
    EndMarker(text, e);
    forall k | p + 4 <= k < e
      ensures !IsCommentEnd(text, k)
    {
      NoEndInside(text, p + 4, body, k - p - 4);
    }
  }

  lemma NoteParts(text: string, p: nat, body: string)
    requires StandsAt(text, p, Render(Note(body)))
    ensures StandsAt(text, p, COMMENT_START) && StandsAt(text, p + 4, body)
    ensures StandsAt(text, p + 4 + |body|, COMMENT_END)
  {
    hide StandsAt;
    assert COMMENT_START + body + COMMENT_END == COMMENT_START + (body + COMMENT_END);
    StandsSplit(text, p, COMMENT_START, body + COMMENT_END);
    StandsSplit(text, p + 4, body, COMMENT_END);
  }

  lemma StartMarker(text: string, p: nat)
    requires StandsAt(text, p, COMMENT_START)
    ensures IsCommentStart(text, p)
  {
    hide StandsAt;
    CharAt(text, p, COMMENT_START, 0);
    CharAt(text, p, COMMENT_START, 1);
    CharAt(text, p, COMMENT_START, 2);
    CharAt(text, p, COMMENT_START, 3);
  }

  lemma EndMarker(text: string, e: nat)
    requires StandsAt(text, e, COMMENT_END)
    ensures IsCommentEnd(text, e) && e + 3 <= |text|
    ensures At(text, e) == '-' && At(text, e + 1) == '-'
  {
    hide StandsAt;
    CharAt(text, e, COMMENT_END, 0);
    CharAt(text, e, COMMENT_END, 1);
    CharAt(text, e, COMMENT_END, 2);
  }

  /** An end marker that begins in a comment would lie in its body or overlap the real one. */
  lemma NoEndInside(text: string, q: nat, body: string, i: nat)
    requires EndFree(body) && StandsAt(text, q, body) && i < |body|
    requires At(text, q + |body|) == '-' && At(text, q + |body| + 1) == '-'
    ensures !IsCommentEnd(text, q + i)
  {
    hide StandsAt, At;
    assert !IsCommentEnd(body, i);
    BodyCharAt(text, q, body, i);
    if i + 1 < |body| {
      BodyCharAt(text, q, body, i + 1);
    }
    if i + 2 < |body| {
      BodyCharAt(text, q, body, i + 2);
    }
  }

  lemma BodyCharAt(text: string, q: nat, body: string, i: nat)
    requires StandsAt(text, q, body) && i < |body|
    ensures At(text, q + i) == At(body, i)
  {
    CharAt(text, q, body, i);
  }

  /** No position stands right behind the start of a comment or inside its end marker. */
  lemma NoteMarks(text: string, p: nat, e: nat)
    requires NoteAt(text, p, e)
    ensures forall k | p + 1 <= k < p + 4 :: !IsMark(text, k)
    ensures !IsMark(text, e + 1) && !IsMark(text, e + 2)
    ensures IsMark(text, p) && OnMark(text, e + 3)
  {
    assert text[p] == '<' && text[p + 1] == '!' && text[p + 2] == '-' && text[p + 3] == '-';
    assert text[e] == '-' && text[e + 1] == '-' && text[e + 2] == '>';
  }

  /** The tidied lists of two neighbouring positions differ by the first one at most. */
  lemma TidyStep(text: string, i: nat)
    requires i < |text|
    ensures Tidy(text, i) == Tidy(text, i + 1) || (IsMark(text, i) && Tidy(text, i) == [i] + Tidy(text, i + 1))
  {
    if IsMark(text, i) {
      RawAscends(text, i + 1);
      var later := RawMarks(text, i + 1);
      if Blank(text, i, later[0]) {
        assert ([i] + later)[1..] == later;
      } else {
        KeepFirst(text, i, later);
      }
    }
  }

  /** The positions inside a comment, all before its end marker, come before those behind it. */
  lemma {:induction false} InnerMarks(text: string, p: nat, e: nat, i: nat) returns (inner: seq<nat>)
    requires NoteAt(text, p, e) && p + 4 <= i <= e + 3
    ensures Tidy(text, i) == inner + Tidy(text, e + 3)
    ensures forall k | 0 <= k < |inner| :: p + 4 <= inner[k] <= e
    decreases e + 3 - i
  {
    hide Tidy, IsMark, NoteAt;
    if i == e + 3 {
      inner := [];
    } else {
      inner := InnerMarks(text, p, e, i + 1);
      NoteMarks(text, p, e);
      NoteLength(text, p, e);
      TidyStep(text, i);
      if Tidy(text, i) != Tidy(text, i + 1) {
        assert [i] + (inner + Tidy(text, e + 3)) == [i] + inner + Tidy(text, e + 3);
        inner := [i] + inner;
      }
    }
  }

  lemma NoteLength(text: string, p: nat, e: nat)
    requires NoteAt(text, p, e)
    ensures p + 4 <= e && e + 3 <= |text|
  {
  }

  /** The only comment end between the start of a comment and a position behind it is its own. */
  lemma NoteEnds(text: string, p: nat, e: nat, from: nat, to: nat)
    requires NoteAt(text, p, e) && p + 4 <= from
    ensures to <= e ==> !CommentEnds(text, from, to)
    ensures from <= e < to ==> CommentEnds(text, from, to)
  {
  }

  lemma NoteCollapse(text: string, p: nat, e: nat, inner: seq<nat>, after: seq<nat>)
    requires NoteAt(text, p, e)
    requires forall k | 0 <= k < |inner| :: p + 4 <= inner[k] <= e
    requires after != [] && after[0] >= e + 3
    ensures Collapse(text, [p] + inner + after) == [p] + Collapse(text, after)
  {
    if inner == [] {
      assert [p] + inner + after == [p] + after;
      NoteEnds(text, p, e, p + 4, after[0]);
      CollapseFirst(text, p, after);
    } else {
      CutNoteCollapse(text, p, e, inner, after);
    }
  }

  lemma CutNoteCollapse(text: string, p: nat, e: nat, inner: seq<nat>, after: seq<nat>)
    requires NoteAt(text, p, e) && inner != []
    requires forall k | 0 <= k < |inner| :: p + 4 <= inner[k] <= e
    requires after != [] && after[0] >= e + 3
    ensures Collapse(text, [p] + inner + after) == [p] + Collapse(text, after)
  {
    hide CommentEnds, Collapse, NoteAt, ScanToken;
    var marks := [p] + inner + after;
    var n := |inner|;
    NoteOpens(text, p, e, inner[0]);
    forall k | 1 <= k < n
      ensures !CommentEnds(text, marks[k], marks[k + 1])
    {
      assert marks[k] == inner[k - 1] && marks[k + 1] == inner[k];
      NoteEnds(text, p, e, marks[k], marks[k + 1]);
    }
    assert marks[n] == inner[n - 1] && marks[n + 1] == after[0];
    NoteEnds(text, p, e, marks[n], marks[n + 1]);
    CloseIndexIs(text, marks, 1, n);
    assert marks[n + 1..] == after;
    CollapseOpened(text, marks, n);
  }

  lemma NoteOpens(text: string, p: nat, e: nat, to: nat)
    requires NoteAt(text, p, e) && p + 4 <= to <= e
    ensures ScanToken(text, p, to) == Opened
  {
    NoteEnds(text, p, e, p + 4, to);
  }

  /** A comment: one position, whatever stands inside. */
  lemma NoteStep(text: string, p: nat, e: nat)
    requires NoteAt(text, p, e)
    ensures Collapse(text, Tidy(text, p)) == [p] + Collapse(text, Tidy(text, e + 3))
  {
    hide Collapse, Gapless;
    NoteTidy(text, p, e);
    var inner := InnerMarks(text, p, e, p + 4);
    TidyHead(text, e + 3);
    assert [p] + (inner + Tidy(text, e + 3)) == [p] + inner + Tidy(text, e + 3);
    NoteCollapse(text, p, e, inner, Tidy(text, e + 3));
  }

  lemma NoteTidy(text: string, p: nat, e: nat)
    requires NoteAt(text, p, e)
    ensures OnMark(text, e + 3)
    ensures Tidy(text, p) == [p] + Tidy(text, p + 4)
  {
    NoteMarks(text, p, e);
    RawSkip(text, p + 1, p + 4);
    RawAscends(text, p + 4);
    var later := RawMarks(text, p + 4);
    assert At(text, p) == '<' && later[0] > p;
    KeepFirst(text, p, later);
  }

  // ----- all pieces -----

  lemma ValidTail(ps: seq<Piece>)
    requires ps != [] && ValidPieces(ps)
    ensures ValidPiece(ps[0]) && ValidPieces(ps[1..])
    ensures IsUnended(ps[0]) && |ps| > 1 ==> !ps[1..][0].Space?
  {
    assert forall k | 0 <= k < |ps| - 1 :: ps[1..][k] == ps[k + 1];
    if |ps| > 1 {
      assert !(IsUnended(ps[0]) && IsLoose(ps[0 + 1]));
    }
  }

  lemma PiecesInside(text: string, p: nat, ps: seq<Piece>)
    requires ps != [] && PiecesAt(text, p, ps)
    ensures p + |Render(ps[0])| <= |text|
  {
  }

  /** The next piece begins where a token may begin. */
  lemma NextOnMark(text: string, p: nat, ps: seq<Piece>)
    requires ps != [] && ValidPieces(ps) && PiecesAt(text, p, ps) && OnMark(text, p)
    ensures OnMark(text, p + |Render(ps[0])|)
  {
    var s := Render(ps[0]);
    var q := p + |s|;
    assert ValidPiece(ps[0]);
    if IsUnended(ps[0]) {
      if |ps| > 1 {
        assert ValidPiece(ps[1]) && !IsLoose(ps[1]) && ps[1..][0] == ps[1];
        var next := Render(ps[1]);
        assert StandsAt(text, q, next);
        if !ps[1].Note? {
          PieceIsSolid(ps[1]);
        }
        assert text[q] == next[0] == '<';
      }
    } else {
      if !ps[0].Note? {
        PieceIsSolid(ps[0]);
      }
      assert text[p + (|s| - 1)] == s[|s| - 1] == '>';
    }
  }

  /** An opening or closing tag, or the beginning of one, does not begin like a comment. */
  lemma TagIsNoNote(text: string, p: nat, piece: Piece)
    requires ValidPiece(piece) && !piece.Note? && !piece.Space? && StandsAt(text, p, Render(piece))
    ensures !IsCommentStart(text, p)
  {
    hide Solid, NoMarkup, GoodAttributes;
    PieceIsSolid(piece);
    var s := Render(piece);
    assert text[p] == s[0];
    match piece
    case OpenTag(name, attrs, single) =>
      LooseIsSame(piece);
      LooseIsNoNote(text, p, Loose(piece));
    case LooseTag(_, _, _, _) => LooseIsNoNote(text, p, piece);
    case Torn(rest) =>
      assert text[p + 1] == s[1] == rest[0];
    case CloseTag(name) =>
      assert text[p + 1] == s[1] == '/';
    case Chars(_) =>
  }

  lemma LooseIsNoNote(text: string, p: nat, piece: Piece)
    requires piece.LooseTag? && ValidPiece(piece) && StandsAt(text, p, Render(piece))
    ensures !IsCommentStart(text, p)
  {
    hide SpellAttributes, GoodSpelled, Render;
    var name, s := piece.name, Render(piece);
    LoosePrefix(piece);
    assert forall k | 0 <= k < |s| :: text[p + k] == s[k];
    assert forall k | 0 <= k < |name| :: text[p + (1 + k)] == name[k];
    assert EndsName(text[p + (1 + |name|)]);
    assert IsCommentStart(text, p) ==> |name| >= 3;
    assert |name| >= 3 && name[0] == '!' && name[1] == '-' && name[2] == '-' ==> "!--" <= name;
  }

  /** Behind the name of a tag stands white space or its end. */
  lemma LoosePrefix(piece: Piece)
    requires piece.LooseTag? && ValidPiece(piece)
    ensures var s, name := Render(piece), piece.name;
      |s| > 1 + |name| && s[0] == '<'
      && (forall k | 0 <= k < |name| :: s[1 + k] == name[k])
      && EndsName(s[1 + |name|])
  {
    hide SpellAttributes;
    var tail := SpellAttributes(piece.spelled) + TagTail(piece.gap, piece.single);
    SpelledStart(piece.spelled);
    assert Render(piece) == "<" + piece.name + tail;
    if piece.spelled == [] {
      assert tail == TagTail(piece.gap, piece.single);
    }
  }

  lemma SpelledStart(spelled: seq<Spelled>)
    ensures spelled == [] ==> SpellAttributes(spelled) == ""
    ensures spelled != [] && GoodSpelled(spelled[0]) ==>
      SpellAttributes(spelled) != "" && IsSpace(SpellAttributes(spelled)[0])
  {
  }

  /** The passes over the token list find the pieces of a document. */
  lemma {:induction false} MarksOfPieces(text: string, p: nat, ps: seq<Piece>)
    requires p <= |text| && OnMark(text, p) && ValidPieces(ps) && PiecesAt(text, p, ps)
    ensures Collapse(text, Tidy(text, p)) == Starts(ps, p)
    decreases |ps|
  {
    hide Render, Collapse, Tidy, ValidPiece, ValidPieces, StandsAt, OnMark;
    if ps == [] {
      NothingLeft(text);
    } else {
      var q := p + |Render(ps[0])|;
      NextOnMark(text, p, ps);
      ValidTail(ps);
      PiecesInside(text, p, ps);
      MarksOfPieces(text, q, ps[1..]);
      PieceStep(text, p, ps[0]);
    }
  }

  lemma NothingLeft(text: string)
    ensures Collapse(text, Tidy(text, |text|)) == [|text|]
  {
  }

  /** The passes over one piece. */
  lemma PieceStep(text: string, p: nat, piece: Piece)
    requires ValidPiece(piece) && StandsAt(text, p, Render(piece))
    requires OnMark(text, p) && OnMark(text, p + |Render(piece)|)
    ensures Collapse(text, Tidy(text, p))
         == (if piece.Space? then [] else [p]) + Collapse(text, Tidy(text, p + |Render(piece)|))
  {
    hide Collapse, Tidy;
    if piece.Note? {
      NotePosition(text, p, piece.body);
      NoteStep(text, p, p + 4 + |piece.body|);
    } else {
      PieceIsSolid(piece);
      if piece.Space? {
        SpaceStep(text, p, Render(piece));
      } else {
        TagIsNoNote(text, p, piece);
        SolidStep(text, p, Render(piece));
      }
    }
  }
}
