/** Entity references (XML 1.0, section 4.6): escaping on output, substitution on input. */
module Entities {
  import opened Text

  /** One line of the entity table: three spellings and the character they stand for. */
  datatype Row = Row(name: string, decimal: string, hex: string, symbol: char)

  const ROWS: nat := 5

  function TableRow(index: nat): Row
    requires index < ROWS
  {
    match index
    case 0 => Row("&amp;", "&#38;", "&#x26;", '&')
    case 1 => Row("&lt;", "&#60;", "&#x3C;", '<')
    case 2 => Row("&gt;", "&#62;", "&#x3E;", '>')
    case 3 => Row("&quot;", "&#34;", "&#x22;", '\"')
    case _ => Row("&apos;", "&#39;", "&#x27;", '\'')
  }

  function Min(a: nat, b: nat): nat {
    if a <= b then a else b
  }

  predicate IsSpecial(c: char) {
    c == '&' || c == '<' || c == '>' || c == '\"' || c == '\''
  }

  // ----- escaping -----

  function Escaped(c: char): string {
    match c
    case '&' => "&amp;"
    case '<' => "&lt;"
    case '>' => "&gt;"
    case '\"' => "&quot;"
    case '\'' => "&apos;"
    case _ => [c]
  }

  /** Character by character replacement: what `InsertEntityRef` is meant to compute. */
  function Escape(s: string): string {
    if s == "" then "" else Escaped(s[0]) + Escape(s[1..])
  }

  lemma {:induction false} EscapeSnoc(s: string, c: char)
    ensures Escape(s + [c]) == Escape(s) + Escaped(c)
  {
    if s == "" {
      assert [c][1..] == "";
    } else {
      assert (s + [c])[1..] == s[1..] + [c];
      EscapeSnoc(s[1..], c);
    }
  }

  /** The scan of the table for the line whose symbol is `c`. */
  method SymbolRow(c: char) returns (row: nat)
    ensures row <= ROWS
    ensures row == ROWS <==> !IsSpecial(c)
    ensures row < ROWS ==> TableRow(row).name == Escaped(c) && |Escaped(c)| >= 4
  {
    row := 0;
    while row < ROWS && c != TableRow(row).symbol
      invariant row <= ROWS
      invariant forall r | 0 <= r < row :: c != TableRow(r).symbol
    {
      row := row + 1;
    }
    assert TableRow(0).symbol == '&' && TableRow(1).symbol == '<' && TableRow(2).symbol == '>'
        && TableRow(3).symbol == '\"' && TableRow(4).symbol == '\'';
  }

  /** The in-place loop: the cursor jumps three characters after a replacement and walks over the rest. */
  method InsertEntityRef(original: string) returns (content: string)
    ensures content == Escape(original)
  {
    hide Escape, Escaped, TableRow;
    content := original;
    var it := 0;
    ghost var done := 0; // characters of `original` already replaced
    EscapeNothing();
    while it < |content|
      invariant done <= |original|
      invariant content == Escape(original[..done]) + original[done..]
      invariant it <= |Escape(original[..done])|
      invariant forall k | it <= k < |Escape(original[..done])| :: !IsSpecial(content[k])
      decreases |original| - done, |content| - it
    {
      ghost var before := Escape(original[..done]);
      var row := SymbolRow(content[it]);
      if row < ROWS {
        ReplaceStep(original, done, content, it);
        content := content[..it] + TableRow(row).name + content[it + 1..];
        it := it + 4;
        done := done + 1;
      } else {
        if it == |before| {
          ReplaceStep(original, done, content, it);
          KeepStep(content, it);
          done := done + 1;
        }
        it := it + 1;
      }
    }
    assert original[..done] == original;
  }

  lemma EscapeNothing()
    ensures Escape("") == ""
  {
  }

  lemma KeepStep(content: string, it: nat)
    requires it < |content| && !IsSpecial(content[it])
    ensures content[..it] + Escaped(content[it]) + content[it + 1..] == content
    ensures |Escaped(content[it])| == 1
  {
  }

  /** Replacing the character under the cursor moves one more character of the original to the escaped part. */
  lemma ReplaceStep(original: string, done: nat, content: string, it: nat)
    requires done <= |original|
    requires content == Escape(original[..done]) + original[done..]
    requires it == |Escape(original[..done])| < |content|
    ensures done < |original| && content[it] == original[done]
    ensures content[..it] + Escaped(content[it]) + content[it + 1..]
         == Escape(original[..done + 1]) + original[done + 1..]
    ensures Escape(original[..done + 1]) == Escape(original[..done]) + Escaped(content[it])
    ensures var next := content[..it] + Escaped(content[it]) + content[it + 1..];
      forall k | it < k < it + |Escaped(content[it])| :: !IsSpecial(next[k])
  {
    hide Escape, Escaped, IsSpecial;
    assert original[..done + 1] == original[..done] + [original[done]];
    EscapeSnoc(original[..done], original[done]);
    assert content[..it] == Escape(original[..done]);
    assert content[it + 1..] == original[done + 1..];
    EscapedTail(content[it]);
  }

  /** Behind its first character a reference has no special ones. */
  lemma EscapedTail(c: char)
    ensures forall k | 1 <= k < |Escaped(c)| :: !IsSpecial(Escaped(c)[k])
  {
  }

  // ----- substitution -----

  /** The comparison stops at the end of either string, so a reference cut off by the end of the text matches. */
  predicate Matches(s: string, word: string) {
    forall k | 0 <= k < Min(|s|, |word|) :: s[k] == word[k]
  }

  /** How many characters of `s` the reference in line `index` of the table covers. */
  function CheckEntityRef(s: string, index: nat): Option<nat>
    requires index < ROWS
  {
    var row := TableRow(index);
    if Matches(s, row.name) then Some(Min(|s|, |row.name|))
    else if Matches(s, row.decimal) then Some(Min(|s|, |row.decimal|))
    else if Matches(s, row.hex) then Some(Min(|s|, |row.hex|))
    else None
  }

  /** The first line of the table, from `index` on, that matches at the start of `s`. */
  function FirstRow(s: string, index: nat): (r: nat)
    requires index <= ROWS
    ensures index <= r <= ROWS
    ensures forall k | index <= k < r :: CheckEntityRef(s, k).None?
    ensures r < ROWS ==> CheckEntityRef(s, r).Some?
    decreases ROWS - index
  {
    if index == ROWS || CheckEntityRef(s, index).Some? then index else FirstRow(s, index + 1)
  }

  lemma RowShape(index: nat)
    requires index < ROWS
    ensures var row := TableRow(index);
      |row.name| >= 4 && |row.decimal| >= 4 && |row.hex| >= 4
      && row.name[0] == row.decimal[0] == row.hex[0] == '&'
      && row.decimal[1] == row.hex[1] == '#'
  {
  }

  lemma CountPositive(s: string, index: nat)
    requires |s| >= 4 && index < ROWS && CheckEntityRef(s, index).Some?
    ensures 4 <= CheckEntityRef(s, index).value <= |s|
  {
    RowShape(index);
  }

  /** Left to right substitution: each reference is replaced once and its result is not looked at again. */
  function Decode(s: string): string {
    if |s| < 4 then s
    else
      var row := FirstRow(s, 0);
      if row < ROWS then
        CountPositive(s, row);
        [TableRow(row).symbol] + Decode(s[CheckEntityRef(s, row).value..])
      else
        [s[0]] + Decode(s[1..])
  }

  /** The scan of the table for the first line that matches at the start of `s`. */
  method ScanRows(s: string) returns (row: nat)
    ensures row == FirstRow(s, 0)
  {
    row := 0;
    while row < ROWS && CheckEntityRef(s, row).None?
      invariant row <= ROWS
      invariant FirstRow(s, 0) == FirstRow(s, row)
    {
      row := row + 1;
    }
  }

  method SubstituteEntityRef(original: string) returns (content: string)
    ensures content == Decode(original)
  {
    hide FirstRow, CheckEntityRef, TableRow;
    content := original;
    if content == "" {
      return;
    }
    var from := 0;
    while from + 3 < |content|
      invariant from <= |content|
      invariant Decode(original) == content[..from] + Decode(content[from..])
      decreases |content| - from
    {
      var row := ScanRows(content[from..]);
      if row < ROWS {
        CountPositive(content[from..], row);
        var count := CheckEntityRef(content[from..], row).value;
        HitStep(content, from, count, TableRow(row).symbol);
        content := content[..from] + [TableRow(row).symbol] + content[from + count..];
      } else {
        MissStep(content, from);
      }
      from := from + 1;
    }
  }

  lemma HitStep(content: string, from: nat, count: nat, symbol: char)
    requires from + count <= |content| && count > 0
    ensures content[from..][count..] == content[from + count..]
    ensures var next := content[..from] + [symbol] + content[from + count..];
      next[..from + 1] == content[..from] + [symbol] && next[from + 1..] == content[from + count..]
  {
  }

  lemma MissStep(content: string, from: nat)
    requires from < |content|
    ensures content[from..][1..] == content[from + 1..]
    ensures content[..from + 1] == content[..from] + [content[from..][0]]
  {
  }

  // ----- the two directions together -----

  lemma RowOfSpecial(c: char, rest: string)
    requires IsSpecial(c)
    ensures |Escaped(c)| >= 4
    ensures var row := FirstRow(Escaped(c) + rest, 0);
      row < ROWS && TableRow(row).symbol == c
      && CheckEntityRef(Escaped(c) + rest, row) == Some(|Escaped(c)|)
  {
    var s := Escaped(c) + rest;
    var want := if c == '&' then 0 else if c == '<' then 1 else if c == '>' then 2 else if c == '\"' then 3 else 4;
    assert Matches(s, TableRow(want).name);
    forall k | 0 <= k < want
      ensures CheckEntityRef(s, k).None?
    {
      NoOtherRow(s, want, k);
    }
  }

  /** Two different lines differ within the first three characters. */
  lemma NoOtherRow(s: string, want: nat, k: nat)
    requires k < want < ROWS
    requires |s| >= 4 && TableRow(want).name <= s
    ensures CheckEntityRef(s, k).None?
  {
    assert s[1] == TableRow(want).name[1] && s[2] == TableRow(want).name[2];
    assert s[1] != TableRow(k).decimal[1];
    assert s[1] != TableRow(k).hex[1];
    assert s[1] != TableRow(k).name[1] || s[2] != TableRow(k).name[2];
  }

  lemma NoRowAtOrdinary(s: string)
    requires |s| >= 4 && s[0] != '&'
    ensures FirstRow(s, 0) == ROWS
  {
    forall k | 0 <= k < ROWS
      ensures CheckEntityRef(s, k).None?
    {
      RowShape(k);
      var row := TableRow(k);
      assert s[0] != row.name[0] && s[0] != row.decimal[0] && s[0] != row.hex[0];
    }
  }

  lemma {:induction false} ShortEscapeIsIdentity(s: string)
    requires |Escape(s)| < 4
    ensures Escape(s) == s
  {
    if s != "" {
      assert !IsSpecial(s[0]);
      ShortEscapeIsIdentity(s[1..]);
    }
  }

  /** Substitution undoes escaping on every text, with no character decoded twice. */
  lemma {:induction false} DecodeEscape(s: string)
    ensures Decode(Escape(s)) == s
  {
    if |Escape(s)| < 4 {
      ShortEscapeIsIdentity(s);
    } else if s != "" {
      var c, rest := s[0], Escape(s[1..]);
      DecodeEscape(s[1..]);
      if IsSpecial(c) {
        RowOfSpecial(c, rest);
        assert (Escaped(c) + rest)[|Escaped(c)|..] == rest;
      } else {
        assert ([c] + rest)[1..] == rest;
        NoRowAtOrdinary([c] + rest);
      }
    }
  }

  // ----- what escaping does to single characters -----

  predicate NoAngle(s: string) {
    forall k | 0 <= k < |s| :: s[k] != '<' && s[k] != '>'
  }

  lemma EscapedShape(c: char)
    ensures Escaped(c) != "" && NoAngle(Escaped(c))
    ensures AllSpace(Escaped(c)) <==> IsSpace(c)
    ensures c != NUL ==> NUL !in Escaped(c)
  {
    assert Escaped(c)[0] == if IsSpecial(c) then '&' else c;
  }

  /** Escaped text holds no markup character, and it is blank exactly when the original is. */
  lemma {:induction false} EscapeShape(s: string)
    ensures NoAngle(Escape(s))
    ensures AllSpace(Escape(s)) <==> AllSpace(s)
    ensures Escape(s) == "" <==> s == ""
    ensures NUL !in s ==> NUL !in Escape(s)
  {
    hide Escaped, IsSpace;
    if s != "" {
      EscapeShape(s[1..]);
      EscapedShape(s[0]);
      assert s == [s[0]] + s[1..];
      SpaceConcat([s[0]], s[1..]);
      SpaceConcat(Escaped(s[0]), Escape(s[1..]));
    }
  }

  lemma SpaceConcat(a: string, b: string)
    ensures AllSpace(a + b) <==> AllSpace(a) && AllSpace(b)
  {
    hide IsSpace;
    var s := a + b;
    assert forall k | 0 <= k < |a| :: s[k] == a[k];
    assert forall k | 0 <= k < |b| :: s[|a| + k] == b[k];
  }

  /** Escaping leaves a text unchanged exactly when there is nothing to escape. */
  lemma {:induction false} EscapeIdentity(s: string)
    ensures Escape(s) == s <==> forall k | 0 <= k < |s| :: !IsSpecial(s[k])
    ensures |Escape(s)| >= |s|
  {
    if s != "" {
      EscapeIdentity(s[1..]);
      assert s == [s[0]] + s[1..];
      assert forall k | 0 <= k < |s[1..]| :: s[1..][k] == s[k + 1];
      if Escape(s) == s {
        assert |Escaped(s[0])| == 1;
        assert Escape(s[1..]) == s[1..];
      }
    }
  }
}
