/** Every spelling of the five predefined entities (XML 1.0, sections 4.1 and 4.6) is read as its character. */
module References {
  import opened Text
  import opened Entities
  import opened Substitution
  import opened Decimal

  function HexDigit(d: nat): char
    requires d < 16
  {
    if d < 10 then DigitChar(d) else 'A' + (d - 10) as char
  }

  /** Character references give the code of the character in decimal or hexadecimal digits. */
  lemma CodesOfTable(index: nat)
    requires index < ROWS
    ensures var row := TableRow(index);
      var code := row.symbol as int;
      && 16 <= code < 256
      && row.decimal == "&#" + ToString(code) + ";"
      && row.hex == "&#x" + [HexDigit(code / 16), HexDigit(code % 16)] + ";"
  {
    hide ToString;
    TwoDigits(TableRow(index).symbol as int);
  }

  lemma TwoDigits(n: nat)
    requires 10 <= n < 100
    ensures ToString(n) == [DigitChar(n / 10), DigitChar(n % 10)]
  {
  }

  /** The names of the five characters, as escaping writes them. */
  lemma NamesOfTable()
    ensures Escape("&<>\"\'") == "&amp;&lt;&gt;&quot;&apos;"
    ensures IsSpelling("&amp;", 0) && IsSpelling("&lt;", 1) && IsSpelling("&gt;", 2)
    ensures IsSpelling("&quot;", 3) && IsSpelling("&apos;", 4)
    ensures TableRow(0).symbol == '&' && TableRow(1).symbol == '<' && TableRow(2).symbol == '>'
    ensures TableRow(3).symbol == '\"' && TableRow(4).symbol == '\''
  {
    EscapeFirst("&<>\"\'");
    EscapeFirst("<>\"\'");
    EscapeFirst(">\"\'");
    EscapeFirst("\"\'");
    EscapeFirst("\'");
    assert "&<>\"\'"[1..] == "<>\"\'" && "<>\"\'"[1..] == ">\"\'" && ">\"\'"[1..] == "\"\'" && "\"\'"[1..] == "\'";
    assert "\'"[1..] == "";
  }

  lemma EscapeFirst(s: string)
    requires s != ""
    ensures Escape(s) == Escaped(s[0]) + Escape(s[1..])
  {
  }

  /** Two spellings of which one is the beginning of the other are the same. */
  lemma NoSpellingInside(a: string, i: nat, b: string, j: nat)
    requires i < ROWS && j < ROWS && IsSpelling(a, i) && IsSpelling(b, j)
    ensures a <= b ==> a == b
  {
    hide IsSpelling;
    SpellingShape(a, i);
    SpellingShape(b, j);
    if a <= b {
      assert b[|a| - 1] == ';';
    }
  }

  lemma DifferentNames(i: nat, j: nat)
    requires i < ROWS && j < ROWS && i != j
    ensures TableRow(i).name != TableRow(j).name
  {
    var a, b := TableRow(i).name, TableRow(j).name;
    assert a[1] != b[1] || a[2] != b[2];
  }

  lemma DifferentCodes(i: nat, j: nat)
    requires i < ROWS && j < ROWS && i != j
    ensures TableRow(i).decimal != TableRow(j).decimal && TableRow(i).hex != TableRow(j).hex
  {
    var a, b := TableRow(i), TableRow(j);
    assert a.decimal[2] != b.decimal[2] || a.decimal[3] != b.decimal[3];
    assert a.hex[3] != b.hex[3] || a.hex[4] != b.hex[4];
  }

  lemma KindsOfSpelling(i: nat)
    requires i < ROWS
    ensures var a := TableRow(i);
      && |a.name| > 2 && |a.decimal| > 2 && |a.hex| > 2
      && a.name[1] != '#' && a.decimal[1] == a.hex[1] == '#' && a.decimal[2] != 'x' && a.hex[2] == 'x'
  {
  }

  lemma DifferentRows(v: string, i: nat, w: string, j: nat)
    requires i < ROWS && j < ROWS && i != j && IsSpelling(v, i) && IsSpelling(w, j)
    ensures v != w
  {
    hide TableRow;
    DifferentNames(i, j);
    DifferentCodes(i, j);
    KindsOfSpelling(i);
    KindsOfSpelling(j);
  }

  /** What matches at the start of a text that begins with a spelling is that spelling. */
  lemma OnlyThatMatches(word: string, i: nat, rest: string, other: string, j: nat)
    requires i < ROWS && j < ROWS && IsSpelling(word, i) && IsSpelling(other, j)
    ensures Matches(word + rest, other) <==> other == word
  {
    hide IsSpelling, Matches;
    var s := word + rest;
    MatchesIs(s, other);
    NoSpellingInside(word, i, other, j);
    NoSpellingInside(other, j, word, i);
    assert word <= s;
    if other <= s {
      PrefixesCompare(other, word, s);
    }
    assert s < other ==> word <= other;
  }

  lemma PrefixesCompare(a: string, b: string, s: string)
    requires a <= s && b <= s
    ensures a <= b || b <= a
  {
    assert a == s[..|a|] && b == s[..|b|];
  }

  lemma RowCovers(word: string, i: nat, rest: string, j: nat)
    requires i < ROWS && j < ROWS && IsSpelling(word, i)
    ensures CheckEntityRef(word + rest, j) == if i == j then Some(|word|) else None
  {
    hide Matches, TableRow;
    var row := TableRow(j);
    OnlyThatMatches(word, i, rest, row.name, j);
    OnlyThatMatches(word, i, rest, row.decimal, j);
    OnlyThatMatches(word, i, rest, row.hex, j);
    if i != j {
      DifferentRows(word, i, row.name, j);
      DifferentRows(word, i, row.decimal, j);
      DifferentRows(word, i, row.hex, j);
    }
  }

  /** Any of the fifteen spellings, wherever it stands, is read as its character. */
  lemma SpellingDecoded(word: string, index: nat, rest: string)
    requires index < ROWS && IsSpelling(word, index)
    ensures Decode(word + rest) == [TableRow(index).symbol] + Decode(rest)
  {
    hide IsSpelling, CheckEntityRef, TableRow;
    var s := word + rest;
    SpellingShape(word, index);
    forall j: nat | j < ROWS
      ensures CheckEntityRef(s, j) == if index == j then Some(|word|) else None
    {
      RowCovers(word, index, rest, j);
    }
    assert FirstRow(s, 0) == index;
    assert s[|word|..] == rest;
  }

  /** Cut off where it could still be one of several, a reference is read as the first of them in the table. */
  lemma AmbiguousReferences()
    ensures Decode("&#x2") == "&" && Decode("&#x3") == "<"
  {
    hide FirstRow, Decode;
    var two, three := "&#x2", "&#x3";
    assert two < TableRow(0).hex && CutRow(two, 0) && Cut(two);
    assert three < TableRow(1).hex && CutRow(three, 1) && Cut(three);
    FirstIs(two, 0);
    assert !Matches(three, TableRow(0).name) by { assert three[1] != TableRow(0).name[1]; }
    assert !Matches(three, TableRow(0).decimal) by { assert three[2] != TableRow(0).decimal[2]; }
    assert !Matches(three, TableRow(0).hex) by { assert three[3] != TableRow(0).hex[3]; }
    FirstIs(three, 1);
  }

  lemma FirstIs(s: string, index: nat)
    requires index < ROWS && Cut(s) && CutRow(s, index) && forall j: nat | j < index :: CheckEntityRef(s, j).None?
    ensures Decode(s) == [TableRow(index).symbol]
  {
    hide CheckEntityRef, TableRow, Cut, CutRow;
    CutRowMatches(s, index);
    CutText(s);
    CutIsLong(s);
    assert FirstRow(s, 0) == index;
    assert Decode(s)[0] == TableRow(index).symbol;
  }

  lemma CutIsLong(s: string)
    requires Cut(s)
    ensures |s| >= 4
  {
  }
}
