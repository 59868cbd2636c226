/** Characters, C strings and the search helpers the XML code takes from the standard library. */
module Text {

  const NUL: char := '\0'

  datatype Option<+T> = None | Some(value: T)

  /** `std::isspace` in the C locale. */
  predicate IsSpace(c: char) {
    c == ' ' || 9 <= c as int <= 13
  }

  /** `std::isalpha` in the C locale. */
  predicate IsAlpha(c: char) {
    'A' <= c <= 'Z' || 'a' <= c <= 'z'
  }

  /** The characters these are. */
  lemma Spaces(c: char)
    ensures IsSpace(c) <==> c in " \t\n\U{000B}\U{000C}\r"
  {
  }

  lemma Letters(c: char)
    ensures IsAlpha(c) <==> c in "ABCDEFGHIJKLMNOPQRSTUVWXYZ" || c in "abcdefghijklmnopqrstuvwxyz"
  {
    UpperLetters(c);
    LowerLetters(c);
  }

  lemma UpperLetters(c: char)
    ensures 'A' <= c <= 'Z' <==> c in "ABCDEFGHIJKLMNOPQRSTUVWXYZ"
  {
    if 'A' <= c <= 'Z' {
      assert "ABCDEFGHIJKLMNOPQRSTUVWXYZ"[c as int - 'A' as int] == c;
    }
  }

  lemma LowerLetters(c: char)
    ensures 'a' <= c <= 'z' <==> c in "abcdefghijklmnopqrstuvwxyz"
  {
    if 'a' <= c <= 'z' {
      assert "abcdefghijklmnopqrstuvwxyz"[c as int - 'a' as int] == c;
    }
  }

  predicate AllSpace(s: string) {
    forall k | 0 <= k < |s| :: IsSpace(s[k])
  }

  /** The character a pointer to position `i` reads: past the end stands the terminating NUL. */
  function At(text: string, i: nat): char {
    if i < |text| then text[i] else NUL
  }

  /** The text between two pointers. */
  function Slice(text: string, from: nat, to: nat): string {
    if from <= to <= |text| then text[from..to] else ""
  }

  /** `std::all_of` with `IsSpace` over the positions `[from, to)`. */
  predicate Blank(text: string, from: nat, to: nat) {
    forall k | from <= k < to :: IsSpace(At(text, k))
  }

  /** What a reader of a C string sees: the characters in front of the first NUL. */
  function CString(s: string): string {
    if s == "" || s[0] == NUL then "" else [s[0]] + CString(s[1..])
  }

  lemma {:induction false} CStringWhole(s: string)
    requires NUL !in s
    ensures CString(s) == s
  {
    if s != "" {
      CStringWhole(s[1..]);
    }
  }

  /** What stands behind a NUL is not seen. */
  lemma {:induction false} CStringEnds(s: string, rest: string)
    requires NUL !in s
    ensures CString(s + [NUL] + rest) == s
  {
    var all := s + [NUL] + rest;
    if s == "" {
      assert all[0] == NUL;
    } else {
      assert all[0] == s[0] && all[1..] == s[1..] + [NUL] + rest;
      CStringEnds(s[1..], rest);
    }
  }

  lemma {:induction false} CStringNoNul(s: string)
    ensures NUL !in CString(s)
  {
    if s != "" {
      CStringNoNul(s[1..]);
    }
  }

  /** `std::find_if` over the positions `[from, to)`; returns `to` when nothing matches. */
  function Find(text: string, from: nat, to: nat, p: char -> bool): (r: nat)
    ensures from <= to ==> from <= r <= to
    ensures forall k | from <= k < r :: !p(At(text, k))
    ensures r < to ==> p(At(text, r))
    decreases (to as int) - (from as int)
  {
    if from >= to then to else if p(At(text, from)) then from else Find(text, from + 1, to, p)
  }

  /** The result of `Find` is the only position with its properties. */
  lemma FindIs(text: string, from: nat, to: nat, p: char -> bool, r: nat)
    requires from <= r <= to
    requires forall k | from <= k < r :: !p(At(text, k))
    requires r < to ==> p(At(text, r))
    ensures Find(text, from, to, p) == r
  {
  }
}
