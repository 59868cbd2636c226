/** When the substitution of entity references does not give what the text was meant to say. */
module Substitution {
  import opened Text
  import opened Entities

  // ----- references cut off by the end of the text -----

  predicate IsSpelling(word: string, index: nat)
    requires index < ROWS
  {
    var row := TableRow(index);
    word == row.name || word == row.decimal || word == row.hex
  }

  /** XML 1.0 knows complete references only: the length of the one in line `index` at the start of `s`. */
  function WholeRef(s: string, index: nat): Option<nat>
    requires index < ROWS
  {
    var row := TableRow(index);
    if row.name <= s then Some(|row.name|)
    else if row.decimal <= s then Some(|row.decimal|)
    else if row.hex <= s then Some(|row.hex|)
    else None
  }

  function FirstWhole(s: string, index: nat): (r: nat)
    requires index <= ROWS
    ensures index <= r <= ROWS
    ensures forall k | index <= k < r :: WholeRef(s, k).None?
    ensures r < ROWS ==> WholeRef(s, r).Some?
    decreases ROWS - index
  {
    if index == ROWS || WholeRef(s, index).Some? then index else FirstWhole(s, index + 1)
  }

  /** Substitution of complete references, from left to right. */
  function StrictDecode(s: string): string {
    if s == "" then ""
    else
      var row := FirstWhole(s, 0);
      if row < ROWS then
        RowShape(row);
        [TableRow(row).symbol] + StrictDecode(s[WholeRef(s, row).value..])
      else
        [s[0]] + StrictDecode(s[1..])
  }

  /** The text is the beginning of a reference that lacks its end, long enough for the loop to look at it. */
  predicate Cut(t: string) {
    |t| >= 4 && exists index: nat :: index < ROWS && CutRow(t, index)
  }

  predicate CutRow(t: string, index: nat)
    requires index < ROWS
  {
    var row := TableRow(index);
    t < row.name || t < row.decimal || t < row.hex
  }

  predicate HasCut(s: string) {
    exists i :: 0 <= i < |s| && Cut(s[i..])
  }

  /** An ampersand comes first in a spelling and a semicolon last, neither anywhere else. */
  lemma SpellingShape(word: string, index: nat)
    requires index < ROWS && IsSpelling(word, index)
    ensures 4 <= |word| && word[0] == '&' && word[|word| - 1] == ';'
    ensures (forall i | 0 < i < |word| :: word[i] != '&') && (forall i | 0 <= i < |word| - 1 :: word[i] != ';')
  {
  }

  lemma MatchesIs(s: string, word: string)
    ensures Matches(s, word) <==> word <= s || s < word
    ensures word <= s ==> Min(|s|, |word|) == |word|
  {
    if Matches(s, word) && |word| <= |s| {
      assert word == s[..|word|];
    } else if Matches(s, word) {
      assert s == word[..|s|];
    }
  }

  lemma SameRow(s: string, index: nat)
    requires index < ROWS && |s| >= 4 && !Cut(s)
    ensures CheckEntityRef(s, index) == WholeRef(s, index)
  {
    hide Matches, TableRow;
    var row := TableRow(index);
    assert !CutRow(s, index);
    MatchesIs(s, row.name);
    MatchesIs(s, row.decimal);
    MatchesIs(s, row.hex);
  }

  lemma SameFirst(s: string)
    requires |s| >= 4 && !Cut(s)
    ensures FirstRow(s, 0) == FirstWhole(s, 0)
  {
    hide CheckEntityRef, WholeRef, Cut;
    forall k: nat | k < ROWS
      ensures CheckEntityRef(s, k) == WholeRef(s, k)
    {
      SameRow(s, k);
    }
  }

  lemma WholeIs(s: string, index: nat)
    requires index < ROWS && WholeRef(s, index).Some?
    ensures exists word :: IsSpelling(word, index) && word <= s && |word| == WholeRef(s, index).value
  {
    hide TableRow;
    var row := TableRow(index);
    assert IsSpelling(row.name, index) && IsSpelling(row.decimal, index) && IsSpelling(row.hex, index);
  }

  lemma CutIs(t: string, index: nat)
    requires index < ROWS && CutRow(t, index)
    ensures exists word :: IsSpelling(word, index) && t < word
  {
    hide TableRow;
    var row := TableRow(index);
    assert IsSpelling(row.name, index) && IsSpelling(row.decimal, index) && IsSpelling(row.hex, index);
  }

  lemma WholeNeeds(s: string, index: nat)
    requires index < ROWS && WholeRef(s, index).Some?
    ensures s != "" && s[0] == '&' && ';' in s
  {
    hide WholeRef, TableRow, IsSpelling;
    WholeIs(s, index);
    var word :| IsSpelling(word, index) && word <= s && |word| == WholeRef(s, index).value;
    SpellingShape(word, index);
    assert s[|word| - 1] == ';';
  }

  /** Where no reference begins, or none can end, nothing is complete. */
  lemma NothingWhole(s: string)
    requires s == "" || s[0] != '&' || ';' !in s
    ensures FirstWhole(s, 0) == ROWS
  {
    hide WholeRef;
    forall k: nat | k < ROWS
      ensures WholeRef(s, k).None?
    {
      if WholeRef(s, k).Some? {
        WholeNeeds(s, k);
      }
    }
  }

  lemma {:induction false} StrictKeeps(s: string)
    requires '&' !in s
    ensures StrictDecode(s) == s
  {
    if s != "" {
      NothingWhole(s);
      StrictKeeps(s[1..]);
    }
  }

  /** A text that is itself cut: the source makes one character of it. */
  lemma CutText(s: string)
    requires Cut(s)
    ensures StrictDecode(s) == s && |Decode(s)| == 1
  {
    hide CheckEntityRef, TableRow, IsSpelling;
    var index: nat :| index < ROWS && CutRow(s, index);
    CutIs(s, index);
    var word :| IsSpelling(word, index) && s < word;
    SpellingShape(word, index);
    NothingWhole(s);
    forall c | c in s[1..]
      ensures c != '&'
    {
      var i :| 0 <= i < |s| - 1 && s[1..][i] == c;
      assert word[i + 1] == c;
    }
    StrictKeeps(s[1..]);
    CutRowMatches(s, index);
    CutCovers(s, FirstRow(s, 0));
  }

  lemma CutRowMatches(s: string, index: nat)
    requires index < ROWS && CutRow(s, index)
    ensures CheckEntityRef(s, index).Some?
  {
    hide Matches, TableRow;
    var row := TableRow(index);
    MatchesIs(s, row.name);
    MatchesIs(s, row.decimal);
    MatchesIs(s, row.hex);
  }

  /** Without a semicolon a match covers the whole rest of the text. */
  lemma CutCovers(s: string, row: nat)
    requires row < ROWS && CheckEntityRef(s, row).Some? && ';' !in s
    ensures CheckEntityRef(s, row) == Some(|s|)
  {
    hide Matches, TableRow;
    var line := TableRow(row);
    NotWhole(s, line.name, row);
    NotWhole(s, line.decimal, row);
    NotWhole(s, line.hex, row);
  }

  lemma NotWhole(s: string, word: string, index: nat)
    requires index < ROWS && IsSpelling(word, index) && ';' !in s
    ensures !(word <= s)
    ensures Matches(s, word) ==> Min(|s|, |word|) == |s|
  {
    hide TableRow, IsSpelling;
    SpellingShape(word, index);
    MatchesIs(s, word);
    LastIn(s, word);
  }

  lemma LastIn(s: string, word: string)
    requires word != ""
    ensures word <= s ==> word[|word| - 1] in s
  {
  }

  lemma {:induction false} ShortStrict(s: string)
    requires |s| < 4
    ensures StrictDecode(s) == s
  {
    if s != "" {
      forall k: nat | k < ROWS
        ensures WholeRef(s, k).None?
      {
        RowShape(k);
      }
      ShortStrict(s[1..]);
    }
  }

  /** A cut lies behind a complete reference, not in it. */
  lemma CutBehind(s: string, n: nat)
    requires n <= |s| && !Cut(s) && n > 0 && forall i | 0 < i < n :: s[i] != '&'
    ensures HasCut(s) <==> HasCut(s[n..])
  {
    if HasCut(s) {
      var i :| 0 <= i < |s| && Cut(s[i..]);
      CutBegins(s[i..]);
      assert s[0..] == s;
      assert i >= n;
      assert s[n..][i - n..] == s[i..];
    }
    if HasCut(s[n..]) {
      var i :| 0 <= i < |s[n..]| && Cut(s[n..][i..]);
      assert s[n..][i..] == s[n + i..];
    }
  }

  lemma CutBegins(t: string)
    requires Cut(t)
    ensures t[0] == '&'
  {
    hide TableRow;
    var index: nat :| index < ROWS && CutRow(t, index);
    CutIs(t, index);
    var word :| IsSpelling(word, index) && t < word;
    SpellingShape(word, index);
  }

  lemma {:induction false} CutShortens(s: string)
    ensures if HasCut(s) then |Decode(s)| < |StrictDecode(s)| else Decode(s) == StrictDecode(s)
    decreases |s|
  {
    hide Cut, CheckEntityRef, WholeRef, TableRow;
    if |s| < 4 {
      ShortStrict(s);
      NoShortCut(s);
    } else if Cut(s) {
      assert s[0..] == s;
      CutText(s);
    } else {
      SameFirst(s);
      var row := FirstRow(s, 0);
      if row < ROWS {
        SameRow(s, row);
        CountPositive(s, row);
        var n := WholeRef(s, row).value;
        WholeIs(s, row);
        var word :| IsSpelling(word, row) && word <= s && |word| == n;
        SpellingShape(word, row);
        CutBehind(s, n);
        CutShortens(s[n..]);
      } else {
        CutBehind(s, 1);
        CutShortens(s[1..]);
      }
    }
  }

  lemma NoShortCut(s: string)
    requires |s| < 4
    ensures !HasCut(s)
  {
  }

  /** The source substitutes just the complete references, unless a suffix of the text is a reference cut off. */
  lemma StrictWithoutCut(s: string)
    ensures Decode(s) == StrictDecode(s) <==> forall i | 0 <= i < |s| :: !Cut(s[i..])
  {
    CutShortens(s);
  }

  lemma OtherSecond(s: string, index: nat)
    requires index < ROWS && |s| >= 4 && s[1] != TableRow(index).name[1] && s[1] != '#'
    ensures CheckEntityRef(s, index).None?
  {
    RowShape(index);
    var row := TableRow(index);
    assert s[1] != row.name[1] && s[1] != row.decimal[1] && s[1] != row.hex[1];
  }

  /** Such a text: the source makes a quotation mark of it. */
  lemma CutOffReference()
    ensures Decode("&quo") == "\"" && StrictDecode("&quo") == "&quo"
  {
    hide CheckEntityRef, FirstWhole, StrictDecode;
    var s := "&quo";
    assert s < TableRow(3).name && CutRow(s, 3);
    CutText(s);
    OtherSecond(s, 0);
    OtherSecond(s, 1);
    OtherSecond(s, 2);
    CutRowMatches(s, 3);
    assert FirstRow(s, 0) == 3;
    DecodeOne(s);
  }

  lemma DecodeOne(s: string)
    requires |Decode(s)| == 1 && |s| >= 4 && FirstRow(s, 0) == 3
    ensures Decode(s) == [TableRow(3).symbol]
  {
    hide CheckEntityRef;
  }

  // ----- references that begin in text already decoded -----

  /** A reference, possibly cut off, begins at a position of the text. */
  predicate Hit(w: string, i: nat) {
    i + 4 <= |w| && FirstRow(w[i..], 0) < ROWS
  }

  /** None begins in `u`, though it may end in the escaped form of the text that follows. */
  predicate Undisturbed(u: string, v: string) {
    forall i | 0 <= i < |u| :: !Hit(u + Escape(v), i)
  }

  lemma NothingBefore(v: string)
    ensures Undisturbed("", v)
  {
  }

  lemma HitShift(u: string, v: string, n: nat, i: nat)
    requires n <= |u|
    ensures (u + Escape(v))[n..] == u[n..] + Escape(v)
    ensures Hit(u + Escape(v), n + i) == Hit(u[n..] + Escape(v), i)
  {
    hide FirstRow, Escape;
    var w := u + Escape(v);
    assert w[n..] == u[n..] + Escape(v);
    if n + i <= |w| {
      assert w[n..][i..] == w[n + i..];
    }
  }

  /** Characters in front of the first ampersand have not been escaped. */
  lemma {:induction false} PlainPrefix(v: string, k: nat)
    requires k <= |Escape(v)| && forall i | 0 <= i < k :: Escape(v)[i] != '&'
    ensures k <= |v| && Escape(v)[k..] == Escape(v[k..])
    decreases k
  {
    if k == 0 {
      assert v[0..] == v && Escape(v)[0..] == Escape(v);
    } else {
      assert v != "";
      assert Escape(v)[0] == Escaped(v[0])[0] && Escaped(v[0]) == [v[0]];
      assert Escape(v)[1..] == Escape(v[1..]);
      PlainPrefix(v[1..], k - 1);
      assert v[1..][k - 1..] == v[k..];
      assert Escape(v)[k..] == Escape(v)[1..][k - 1..];
    }
  }

  /** The characters a match covers are those of a spelling, or the whole rest of the text. */
  lemma MatchBody(s: string, row: nat)
    requires row < ROWS && |s| >= 4 && CheckEntityRef(s, row).Some?
    ensures 4 <= CheckEntityRef(s, row).value <= |s|
    ensures forall i | 0 < i < CheckEntityRef(s, row).value :: s[i] != '&'
  {
    hide TableRow;
    CountPositive(s, row);
    var line := TableRow(row);
    assert IsSpelling(line.name, row) && IsSpelling(line.decimal, row) && IsSpelling(line.hex, row);
    SpellingShape(line.name, row);
    SpellingShape(line.decimal, row);
    SpellingShape(line.hex, row);
  }

  /** Decoding behind decoded text never yields more than both texts, and less as soon as a reference begins in it. */
  lemma {:induction false} HitShortens(u: string, v: string)
    ensures |Decode(u + Escape(v))| <= |u| + |v|
    ensures if Undisturbed(u, v) then Decode(u + Escape(v)) == u + v else |Decode(u + Escape(v))| < |u| + |v|
    decreases |u|
  {
    hide Escape, CheckEntityRef, TableRow;
    var w := u + Escape(v);
    if u == "" {
      assert w == Escape(v) && u + v == v;
      DecodeEscape(v);
    } else if |w| < 4 {
      ShortEscapeIsIdentity(v);
    } else if FirstRow(w, 0) < ROWS {
      assert w[0..] == w && Hit(w, 0);
      HitAtStart(u, v);
    } else {
      assert w[0..] == w && !Hit(w, 0);
      HitShift(u, v, 1, 0);
      UndisturbedTail(u, v);
      HitShortens(u[1..], v);
      assert u == [u[0]] + u[1..];
    }
  }

  lemma UndisturbedTail(u: string, v: string)
    requires u != "" && !Hit(u + Escape(v), 0)
    ensures Undisturbed(u, v) <==> Undisturbed(u[1..], v)
  {
    hide Hit;
    forall i: nat
      ensures Hit(u + Escape(v), 1 + i) == Hit(u[1..] + Escape(v), i)
    {
      HitShift(u, v, 1, i);
    }
    if Undisturbed(u, v) {
      forall i | 0 <= i < |u| - 1
        ensures !Hit(u[1..] + Escape(v), i)
      {
        assert !Hit(u + Escape(v), 1 + i);
      }
    }
    if Undisturbed(u[1..], v) {
      forall i | 0 <= i < |u|
        ensures !Hit(u + Escape(v), i)
      {
        assert i > 0 ==> !Hit(u[1..] + Escape(v), i - 1);
      }
    }
  }

  lemma HitAtStart(u: string, v: string)
    requires u != "" && |u + Escape(v)| >= 4 && FirstRow(u + Escape(v), 0) < ROWS
    ensures |Decode(u + Escape(v))| < |u| + |v|
    decreases |u|, 0
  {
    hide Escape, CheckEntityRef, TableRow;
    var w := u + Escape(v);
    var row := FirstRow(w, 0);
    MatchBody(w, row);
    var n := CheckEntityRef(w, row).value;
    if n <= |u| {
      HitShift(u, v, n, 0);
      HitShortens(u[n..], v);
    } else {
      var k := n - |u|;
      forall i | 0 <= i < k
        ensures Escape(v)[i] != '&'
      {
        assert w[|u| + i] == Escape(v)[i];
      }
      PlainPrefix(v, k);
      assert w[n..] == Escape(v)[k..];
      DecodeEscape(v[k..]);
    }
  }

  /**
   Text that is decoded, extended by escaped text and decoded again, as content with a comment in it is: it
   comes out right exactly when no reference begins in the text decoded first.
   */
  lemma DecodedTwice(u: string, v: string)
    ensures Decode(Decode(Escape(u)) + Escape(v)) == u + v
       <==> Undisturbed(u, v)
  {
    DecodeEscape(u);
    HitShortens(u, v);
  }

  /** What comes of texts that are appended and decoded one after another. */
  function Gathered(content: string, texts: seq<string>): string
    decreases |texts|
  {
    if texts == [] then content else Gathered(Decode(content + texts[0]), texts[1..])
  }

  function EscapeAll(texts: seq<string>): seq<string> {
    if texts == [] then [] else [Escape(texts[0])] + EscapeAll(texts[1..])
  }

  function Joined(content: string, texts: seq<string>): string
    decreases |texts|
  {
    if texts == [] then content else Joined(content + texts[0], texts[1..])
  }

  /** No reference begins in what stands before any of the texts. */
  predicate AllUndisturbed(content: string, texts: seq<string>)
    decreases |texts|
  {
    texts == [] || (Undisturbed(content, texts[0]) && AllUndisturbed(content + texts[0], texts[1..]))
  }

  /** What has become shorter stays shorter. */
  lemma {:induction false} GatheredLength(content: string, texts: seq<string>)
    ensures |Gathered(content, EscapeAll(texts))| <= |Joined(content, texts)|
    ensures |Joined(content, texts)| == |content| + |Joined("", texts)|
    decreases |texts|
  {
    hide Decode, Escape, Undisturbed;
    if texts != [] {
      HitShortens(content, texts[0]);
      var next := Decode(content + Escape(texts[0]));
      GatheredLength(next, texts[1..]);
      GatheredLength(content + texts[0], texts[1..]);
      GatheredLength("" + texts[0], texts[1..]);
      assert EscapeAll(texts)[1..] == EscapeAll(texts[1..]);
    }
  }

  lemma {:induction false} GatheredExactly(content: string, texts: seq<string>)
    ensures Gathered(content, EscapeAll(texts)) == Joined(content, texts) <==> AllUndisturbed(content, texts)
    decreases |texts|
  {
    hide Decode, Escape, Undisturbed;
    if texts != [] {
      var next := Decode(content + Escape(texts[0]));
      assert EscapeAll(texts)[1..] == EscapeAll(texts[1..]);
      HitShortens(content, texts[0]);
      if Undisturbed(content, texts[0]) {
        GatheredExactly(content + texts[0], texts[1..]);
      } else {
        GatheredLength(next, texts[1..]);
        GatheredLength(content + texts[0], texts[1..]);
      }
    }
  }

  // ----- texts of which the blank ones are lost -----

  /** The texts that are not blank; the others never reach the content. */
  function Visible(texts: seq<string>): seq<string> {
    if texts == [] then []
    else if AllSpace(texts[0]) then Visible(texts[1..])
    else [texts[0]] + Visible(texts[1..])
  }

  predicate NoBlankText(texts: seq<string>) {
    forall k | 0 <= k < |texts| :: AllSpace(texts[k]) ==> texts[k] == ""
  }

  /** A blank text that is lost makes the whole shorter. */
  lemma {:induction false} VisibleJoined(content: string, texts: seq<string>)
    ensures |Joined(content, Visible(texts))| <= |Joined(content, texts)|
    ensures if NoBlankText(texts) then Joined(content, Visible(texts)) == Joined(content, texts)
            else |Joined(content, Visible(texts))| < |Joined(content, texts)|
    decreases |texts|
  {
    if texts != [] {
      var first, rest := texts[0], texts[1..];
      VisibleJoined(content + first, rest);
      assert NoBlankText(texts) <==> (AllSpace(first) ==> first == "") && NoBlankText(rest) by {
        assert forall k | 0 < k < |texts| :: texts[k] == rest[k - 1];
      }
      if AllSpace(first) {
        GatheredLength(content, Visible(rest));
        GatheredLength(content + first, Visible(rest));
        assert first == "" ==> content + first == content;
      } else {
        assert ([first] + Visible(rest))[1..] == Visible(rest);
      }
    }
  }

  /**
   Texts appended and decoded one after another, the blank ones lost, give the joined texts exactly when no blank
   text is lost and no reference begins in what stands before any of the others.
   */
  lemma VisibleExactly(texts: seq<string>)
    ensures Gathered("", EscapeAll(Visible(texts))) == Joined("", texts)
       <==> NoBlankText(texts) && AllUndisturbed("", Visible(texts))
  {
    hide Gathered, Joined, AllUndisturbed, NoBlankText;
    GatheredExactly("", Visible(texts));
    GatheredLength("", Visible(texts));
    VisibleJoined("", texts);
  }
}
