/**
 The list of positions that cuts a document into tokens. A position points to a '<' or behind a '>', and
 the text between two neighbours is a token; the last position is the end of the text.
 */
module XmlScan {
  import opened Text
  import opened XmlTags

  // ----- specification of the four passes -----

  predicate IsMark(text: string, i: nat)
    requires i < |text|
  {
    i == 0 || text[i] == '<' || text[i - 1] == '>'
  }

  function RawMarks(text: string, from: nat): seq<nat>
    requires from <= |text|
    decreases |text| - from
  {
    if from == |text| then [from]
    else if IsMark(text, from) then [from] + RawMarks(text, from + 1)
    else RawMarks(text, from + 1)
  }

  /** Drops the left end of every token that is all white space; the token before it takes the space over. */
  function Gapless(text: string, marks: seq<nat>): seq<nat> {
    if |marks| <= 1 then marks
    else if Blank(text, marks[0], marks[1]) then Gapless(text, marks[1..])
    else [marks[0]] + Gapless(text, marks[1..])
  }

  predicate CommentEnds(text: string, from: nat, to: nat) {
    exists i | from <= i < to :: IsCommentEnd(text, i)
  }

  /** What a scan of one token that starts outside a comment finds. */
  datatype Scan = Plain | Opened | Closed

  function ScanToken(text: string, from: nat, to: nat): Scan
    decreases (to as int) - (from as int)
  {
    if from >= to then Plain
    else if IsCommentStart(text, from) then
      if CommentEnds(text, from + 4, to) then Closed else Opened
    else ScanToken(text, from + 1, to)
  }

  /** The first token, from number `k` on, in which a comment ends; the last position when there is none. */
  function CloseIndex(text: string, marks: seq<nat>, k: nat): (r: nat)
    requires k < |marks|
    ensures k <= r < |marks|
    ensures forall i | k <= i < r :: !CommentEnds(text, marks[i], marks[i + 1])
    ensures r + 1 < |marks| ==> CommentEnds(text, marks[r], marks[r + 1])
    decreases |marks| - k
  {
    if k + 1 == |marks| || CommentEnds(text, marks[k], marks[k + 1]) then k
    else CloseIndex(text, marks, k + 1)
  }

  /** Every comment becomes one token; a comment that never ends changes nothing. */
  function Collapse(text: string, marks: seq<nat>): seq<nat> {
    if |marks| <= 1 then marks
    else if ScanToken(text, marks[0], marks[1]) == Opened then
      var k := CloseIndex(text, marks, 1);
      if k + 1 == |marks| then marks else [marks[0]] + Collapse(text, marks[k + 1..])
    else [marks[0]] + Collapse(text, marks[1..])
  }

  /** Comments in front of the root. None: the source would read behind the end of the list. */
  function DropLeadingComments(text: string, marks: seq<nat>): Option<seq<nat>> {
    if |marks| <= 1 then None
    else if DetermineToken(text, marks[0], marks[1]) == Comment then DropLeadingComments(text, marks[1..])
    else Some(marks)
  }

  // ----- the passes as the source runs them -----

  /** `std::list<const TChar *>` with positions instead of pointers; the passes change it in place. */
  class TokenList {
    const text: string
    var marks: seq<nat>

    constructor Tokenize(text: string)
      requires text != ""
      ensures this.text == text && marks == RawMarks(text, 0)
    {
      var tokens := [0];
      var it := 1;
      while it < |text|
        invariant 1 <= it <= |text|
        invariant tokens != [] && tokens[|tokens| - 1] < it
        invariant tokens + RawMarks(text, it) == RawMarks(text, 0)
      {
        if text[it] == '<' {
          tokens := tokens + [it];
        } else if text[it - 1] == '>' {
          tokens := tokens + [it];
        }
        it := it + 1;
      }
      if tokens[|tokens| - 1] < |text| {
        tokens := tokens + [it];
      }
      this.text := text;
      this.marks := tokens;
    }

    method RemoveGaps()
      modifies this
      ensures marks == Gapless(text, old(marks))
    {
      var left := 0;
      assert marks[0..] == marks;
      while left + 1 < |marks|
        invariant left <= |marks| && (marks != [] ==> left < |marks|)
        invariant marks[..left] + Gapless(text, marks[left..]) == Gapless(text, old(marks))
        decreases |marks| - left
      {
        ghost var rest := marks[left..];
        if Blank(text, marks[left], marks[left + 1]) {
          marks := marks[..left] + marks[left + 1..];
          assert marks[left..] == rest[1..];
        } else {
          assert marks[..left + 1] == marks[..left] + [rest[0]];
          left := left + 1;
          assert marks[left..] == rest[1..];
        }
      }
    }

    /** The inner loop of RemoveInsideComments over the characters of one token. */
    method ScanOne(from: nat, to: nat, inside: bool) returns (open: bool, ended: bool)
      ensures inside ==> open && ended == CommentEnds(text, from, to)
      ensures !inside ==>
          ScanToken(text, from, to) == if !open then Plain else if ended then Closed else Opened
      ensures ended ==> open
    {
      open, ended := inside, false;
      var it := from;
      ghost var start := from; // where the search for the end of the comment began
      while it < to
        invariant from <= start && (start <= it || start <= to)
        invariant inside ==> open && start == from
        invariant !open ==> ScanToken(text, from, to) == ScanToken(text, it, to)
        invariant open ==> start <= it && forall i | start <= i < it :: !IsCommentEnd(text, i)
        invariant open && !inside ==>
            ScanToken(text, from, to) == if CommentEnds(text, start, to) then Closed else Opened
      {
        if !open && IsCommentStart(text, it) {
          open := true;
          start := it + 4;
          it := it + 3;
        } else if open && IsCommentEnd(text, it) {
          ended := true;
          return;
        }
        it := it + 1;
      }
    }

    method RemoveInsideComments()
      modifies this
      ensures marks == Collapse(text, old(marks))
    {
      hide Collapse, ScanToken, CommentEnds;
      var left := 0;
      var open := false;
      var eraseFrom := 0; // meaningful while `open`
      assert marks[0..] == marks;
      while left + 1 < |marks|
        invariant left <= |marks| && (marks != [] ==> left < |marks|)
        invariant !open ==> marks[..left] + Collapse(text, marks[left..]) == Collapse(text, old(marks))
        invariant open ==> OpenedAt(eraseFrom, left)
        invariant open ==> marks[..eraseFrom - 1] + Collapse(text, marks[eraseFrom - 1..]) == Collapse(text, old(marks))
        decreases |marks| - left
      {
        var wasOpen := open;
        var ended;
        open, ended := ScanOne(marks[left], marks[left + 1], open);
        if open && !wasOpen {
          eraseFrom := left + 1;
        }
        if ended {
          CollapseStep(text, marks, eraseFrom, left + 1);
          marks := marks[..eraseFrom] + marks[left + 1..];
          left := eraseFrom;
          open := false;
        } else {
          if !open {
            CollapsePlain(text, marks, left);
          }
          left := left + 1;
        }
      }
      if open {
        CollapseNever(text, marks, eraseFrom);
      } else {
        CollapseShort(text, marks[left..]);
        assert marks[..left] + marks[left..] == marks;
      }
    }

    /** A comment began in the token before `from` and did not end in the tokens up to `left`. */
    ghost predicate OpenedAt(from: nat, left: nat)
      reads this
    {
      && 1 <= from <= left < |marks|
      && ScanToken(text, marks[from - 1], marks[from]) == Opened
      && forall i | from <= i < left :: !CommentEnds(text, marks[i], marks[i + 1])
    }

    method PopFront()
      requires marks != []
      modifies this
      ensures marks == old(marks)[1..]
    {
      marks := marks[1..];
    }

    method RemoveLeadingComments() returns (ok: bool)
      modifies this
      ensures ok == DropLeadingComments(text, old(marks)).Some?
      ensures ok ==> |marks| > 1 && marks == DropLeadingComments(text, old(marks)).value
    {
      while |marks| > 1 && DetermineToken(text, marks[0], marks[1]) == Comment
        invariant DropLeadingComments(text, old(marks)) == DropLeadingComments(text, marks)
        decreases |marks|
      {
        marks := marks[1..];
      }
      ok := |marks| > 1;
    }
  }

  // ----- single steps of RemoveInsideComments -----

  lemma CollapseShort(text: string, marks: seq<nat>)
    requires |marks| <= 1
    ensures Collapse(text, marks) == marks
  {
  }

  lemma CollapsePlain(text: string, marks: seq<nat>, left: nat)
    requires left + 1 < |marks|
    requires ScanToken(text, marks[left], marks[left + 1]) != Opened
    ensures marks[..left] + Collapse(text, marks[left..]) == marks[..left + 1] + Collapse(text, marks[left + 1..])
  {
    var rest := marks[left..];
    assert rest[1..] == marks[left + 1..];
    assert marks[..left + 1] == marks[..left] + [rest[0]];
  }

  /** The search for the end of a comment, counted from the token that opens it. */
  lemma CloseIndexFrom(text: string, marks: seq<nat>, from: nat, to: nat)
    requires 1 <= from < to < |marks|
    requires forall i | from <= i < to - 1 :: !CommentEnds(text, marks[i], marks[i + 1])
    requires CommentEnds(text, marks[to - 1], marks[to])
    ensures CloseIndex(text, marks[from - 1..], 1) == to - from
  {
    hide CommentEnds;
    var rest := marks[from - 1..];
    forall i | 1 <= i < to - from
      ensures !CommentEnds(text, rest[i], rest[i + 1])
    {
      assert rest[i] == marks[from - 1 + i] && rest[i + 1] == marks[from + i];
    }
    CloseIndexIs(text, rest, 1, to - from);
  }

  /** The token before `from` opens a comment that ends in the token before `to`, possibly the same one. */
  lemma CollapseStep(text: string, marks: seq<nat>, from: nat, to: nat)
    requires 1 <= from <= to < |marks|
    requires from == to ==> ScanToken(text, marks[from - 1], marks[from]) == Closed
    requires from < to ==> ScanToken(text, marks[from - 1], marks[from]) == Opened
    requires forall i | from <= i < to - 1 :: !CommentEnds(text, marks[i], marks[i + 1])
    requires from < to ==> CommentEnds(text, marks[to - 1], marks[to])
    ensures var next := marks[..from] + marks[to..];
      marks[..from - 1] + Collapse(text, marks[from - 1..]) == next[..from] + Collapse(text, next[from..])
  {
    hide Collapse, ScanToken, CommentEnds, CloseIndex;
    var rest := marks[from - 1..];
    if from < to {
      CloseIndexFrom(text, marks, from, to);
      CollapseOpened(text, rest, to - from);
    } else {
      CollapseOther(text, rest);
    }
    EraseRange(marks, from, to);
  }

  lemma EraseRange(marks: seq<nat>, from: nat, to: nat)
    requires 1 <= from <= to < |marks|
    ensures var next := marks[..from] + marks[to..];
      next[..from] == marks[..from - 1] + [marks[from - 1]] && next[from..] == marks[to..]
    ensures marks[from - 1..][to - from + 1..] == marks[to..]
  {
  }

  lemma CollapseOther(text: string, marks: seq<nat>)
    requires |marks| > 1 && ScanToken(text, marks[0], marks[1]) != Opened
    ensures Collapse(text, marks) == [marks[0]] + Collapse(text, marks[1..])
  {
  }

  lemma CollapseOpened(text: string, marks: seq<nat>, k: nat)
    requires |marks| > 1 && ScanToken(text, marks[0], marks[1]) == Opened
    requires CloseIndex(text, marks, 1) == k && k + 1 < |marks|
    ensures Collapse(text, marks) == [marks[0]] + Collapse(text, marks[k + 1..])
  {
  }

  lemma CollapseNever(text: string, marks: seq<nat>, from: nat)
    requires 1 <= from < |marks|
    requires ScanToken(text, marks[from - 1], marks[from]) == Opened
    requires forall i | from <= i < |marks| - 1 :: !CommentEnds(text, marks[i], marks[i + 1])
    ensures marks[..from - 1] + Collapse(text, marks[from - 1..]) == marks
  {
    var rest := marks[from - 1..];
    CloseIndexIs(text, rest, 1, |rest| - 1);
  }

  lemma CloseIndexIs(text: string, marks: seq<nat>, k: nat, r: nat)
    requires k <= r < |marks|
    requires forall i | k <= i < r :: !CommentEnds(text, marks[i], marks[i + 1])
    requires r + 1 < |marks| ==> CommentEnds(text, marks[r], marks[r + 1])
    ensures CloseIndex(text, marks, k) == r
  {
  }

  /** Positions in order, none behind the end of the text. */
  predicate Ascending(marks: seq<nat>) {
    forall i | 0 <= i < |marks| - 1 :: marks[i] < marks[i + 1]
  }

  lemma {:induction false} RawMarksAscend(text: string, from: nat)
    requires from <= |text|
    ensures Ascending(RawMarks(text, from)) && RawMarks(text, from) != [] && RawMarks(text, from)[0] >= from
    decreases |text| - from
  {
    if from < |text| {
      RawMarksAscend(text, from + 1);
    }
  }

  /** RemoveGaps leaves no token that is all white space. */
  lemma {:induction false} NoGapsLeft(text: string, marks: seq<nat>)
    requires Ascending(marks)
    ensures var kept := Gapless(text, marks);
      && Ascending(kept) && (marks != [] ==> kept != [] && kept[0] >= marks[0])
      && forall i | 0 <= i < |kept| - 1 :: !Blank(text, kept[i], kept[i + 1])
    decreases |marks|
  {
    if |marks| > 1 {
      NoGapsLeft(text, marks[1..]);
      var rest := Gapless(text, marks[1..]);
      if !Blank(text, marks[0], marks[1]) {
        var kept := [marks[0]] + rest;
        assert !Blank(text, marks[0], rest[0]);
        forall i | 0 <= i < |kept| - 1
          ensures kept[i] < kept[i + 1] && !Blank(text, kept[i], kept[i + 1])
        {
          assert i > 0 ==> kept[i] == rest[i - 1];
        }
      }
    }
  }
}
