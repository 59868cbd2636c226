/** The compile-time sequences that turn a list of type sizes into the levels of a pool. */
module PoolBuilder {

  function EliminateDuplicates(sizes: seq<nat>): seq<nat> {
    if sizes == [] then []
    else if sizes[0] in sizes[1..] then EliminateDuplicates(sizes[1..])
    else [sizes[0]] + EliminateDuplicates(sizes[1..])
  }

  function InsertOrdered(sizes: seq<nat>, v: nat): seq<nat> {
    if sizes == [] then [v]
    else if v <= sizes[0] then [v] + sizes
    else [sizes[0]] + InsertOrdered(sizes[1..], v)
  }

  /** Defined for non-empty sequences only, as the template is. */
  function InsertionSort(sizes: seq<nat>): seq<nat>
    requires sizes != []
  {
    if |sizes| == 1 then sizes else InsertOrdered(InsertionSort(sizes[1..]), sizes[0])
  }

  /** The levels of `PoolSuitableFor`. */
  function Levels(sizes: seq<nat>): seq<nat>
    requires sizes != []
  {
    Filtered(sizes);
    InsertionSort(EliminateDuplicates(sizes))
  }

  /** `PoolFinder`: the first level of a pool, from the outermost base, whose blocks are large enough. */
  function SuitableLevel(levels: seq<nat>, size: nat): (k: nat)
    ensures k <= |levels|
    ensures forall i | 0 <= i < k :: levels[i] < size
    ensures k < |levels| ==> size <= levels[k]
  {
    if levels == [] || size <= levels[0] then 0 else 1 + SuitableLevel(levels[1..], size)
  }

  predicate Ascending(sizes: seq<nat>) {
    forall i, j | 0 <= i < j < |sizes| :: sizes[i] <= sizes[j]
  }

  /** What `static_assert` demands of the levels of a pool. */
  predicate StrictlyAscending(sizes: seq<nat>) {
    forall i, j | 0 <= i < j < |sizes| :: sizes[i] < sizes[j]
  }

  predicate NoDuplicates(sizes: seq<nat>) {
    forall i, j | 0 <= i < j < |sizes| :: sizes[i] != sizes[j]
  }

  /** Every value survives exactly once. */
  lemma {:induction false} Filtered(sizes: seq<nat>)
    ensures NoDuplicates(EliminateDuplicates(sizes))
    ensures forall v :: v in EliminateDuplicates(sizes) <==> v in sizes
    ensures sizes != [] ==> EliminateDuplicates(sizes) != []
  {
    if sizes != [] {
      Filtered(sizes[1..]);
      assert sizes == [sizes[0]] + sizes[1..];
      assert sizes[0] in sizes;
    }
  }

  lemma {:induction false} InsertedElements(sizes: seq<nat>, v: nat)
    ensures multiset(InsertOrdered(sizes, v)) == multiset(sizes) + multiset{v}
  {
    if sizes != [] && v > sizes[0] {
      InsertedElements(sizes[1..], v);
      assert sizes == [sizes[0]] + sizes[1..];
    }
  }

  lemma {:induction false} Inserted(sizes: seq<nat>, v: nat)
    requires Ascending(sizes)
    ensures Ascending(InsertOrdered(sizes, v))
  {
    if sizes != [] && v > sizes[0] {
      var rest := InsertOrdered(sizes[1..], v);
      Inserted(sizes[1..], v);
      InsertedElements(sizes[1..], v);
      forall i | 0 <= i < |rest|
        ensures sizes[0] <= rest[i]
      {
        assert rest[i] in multiset(rest);
        assert rest[i] in sizes[1..] || rest[i] == v;
      }
      Prepended(sizes[0], rest);
    } else if sizes != [] {
      Prepended(v, sizes);
    }
  }

  lemma Prepended(v: nat, rest: seq<nat>)
    requires Ascending(rest) && forall i | 0 <= i < |rest| :: v <= rest[i]
    ensures Ascending([v] + rest)
  {
  }

  lemma {:induction false} SortedIsPermutation(sizes: seq<nat>)
    requires sizes != []
    ensures Ascending(InsertionSort(sizes))
    ensures multiset(InsertionSort(sizes)) == multiset(sizes)
  {
    if |sizes| > 1 {
      SortedIsPermutation(sizes[1..]);
      Inserted(InsertionSort(sizes[1..]), sizes[0]);
      InsertedElements(InsertionSort(sizes[1..]), sizes[0]);
      assert sizes == [sizes[0]] + sizes[1..];
    }
  }

  lemma PermutationKeepsApart(a: seq<nat>, b: seq<nat>)
    requires NoDuplicates(a) && multiset(a) == multiset(b)
    ensures NoDuplicates(b)
  {
    forall i, j | 0 <= i < j < |b|
      ensures b[i] != b[j]
    {
      if b[i] == b[j] {
        TwiceCounts(b, i, j);
        OnceCounts(a, b[i]);
        assert false;
      }
    }
  }

  lemma TwiceCounts(s: seq<nat>, i: nat, j: nat)
    requires i < j < |s| && s[i] == s[j]
    ensures multiset(s)[s[i]] >= 2
  {
    assert s == s[..j] + [s[j]] + s[j + 1..];
    assert s[i] in s[..j];
  }

  lemma {:induction false} OnceCounts(s: seq<nat>, v: nat)
    requires NoDuplicates(s)
    ensures multiset(s)[v] <= 1
  {
    if s != [] {
      OnceCounts(s[1..], v);
      assert s == [s[0]] + s[1..];
      assert s[0] !in s[1..];
    }
  }

  /** The levels are the sizes given, each once, in strictly ascending order. */
  lemma LevelsAreTheSizes(sizes: seq<nat>)
    requires sizes != []
    ensures StrictlyAscending(Levels(sizes))
    ensures forall v :: v in Levels(sizes) <==> v in sizes
  {
    Filtered(sizes);
    var filtered := EliminateDuplicates(sizes);
    SortedIsPermutation(filtered);
    PermutationKeepsApart(filtered, Levels(sizes));
    forall v
      ensures v in Levels(sizes) <==> v in sizes
    {
      assert v in multiset(Levels(sizes)) <==> v in multiset(filtered);
    }
  }

  /** Every listed type is placed in a block of exactly its own size, whatever the order of the list. */
  lemma OwnSize(sizes: seq<nat>, size: nat)
    requires size in sizes
    ensures SuitableLevel(Levels(sizes), size) < |Levels(sizes)|
    ensures Levels(sizes)[SuitableLevel(Levels(sizes), size)] == size
  {
    LevelsAreTheSizes(sizes);
    var levels := Levels(sizes);
    var k :| 0 <= k < |levels| && levels[k] == size;
    NotAfter(levels, SuitableLevel(levels, size), k);
  }

  lemma NotAfter(levels: seq<nat>, i: nat, j: nat)
    requires StrictlyAscending(levels) && i <= j < |levels|
    ensures levels[i] <= levels[j]
  {
  }

  /** A type that is not listed gets the smallest level that holds it, or none if it is larger than all. */
  lemma SmallestThatFits(levels: seq<nat>, size: nat, other: nat)
    requires StrictlyAscending(levels) && other < |levels| && size <= levels[other]
    ensures SuitableLevel(levels, size) <= other
    ensures levels[SuitableLevel(levels, size)] <= levels[other]
  {
    NotAfter(levels, SuitableLevel(levels, size), other);
  }

  /** The list of types decides the levels only by the set of its sizes. */
  lemma LevelsDependOnSet(a: seq<nat>, b: seq<nat>)
    requires a != [] && b != [] && forall v :: v in a <==> v in b
    ensures Levels(a) == Levels(b)
  {
    LevelsAreTheSizes(a);
    LevelsAreTheSizes(b);
    AscendingIsUnique(Levels(a), Levels(b));
  }

  lemma {:induction false} AscendingIsUnique(a: seq<nat>, b: seq<nat>)
    requires StrictlyAscending(a) && StrictlyAscending(b) && forall v :: v in a <==> v in b
    ensures a == b
  {
    BothEmpty(a, b);
    if a != [] {
      HeadIsLeast(a, b[0]);
      HeadIsLeast(b, a[0]);
      forall v
        ensures v in a[1..] <==> v in b[1..]
      {
        TailHas(a, v);
        TailHas(b, v);
      }
      AscendingIsUnique(a[1..], b[1..]);
      assert a == [a[0]] + a[1..] && b == [b[0]] + b[1..];
    }
  }

  lemma BothEmpty(a: seq<nat>, b: seq<nat>)
    requires forall v :: v in a <==> v in b
    ensures a == [] <==> b == []
  {
    if a != [] {
      assert a[0] in b;
    }
    if b != [] {
      assert b[0] in a;
    }
  }

  lemma HeadIsLeast(s: seq<nat>, v: nat)
    requires StrictlyAscending(s) && v in s
    ensures s[0] <= v
  {
    var i :| 0 <= i < |s| && s[i] == v;
    NotAfter(s, 0, i);
  }

  lemma TailHas(s: seq<nat>, v: nat)
    requires StrictlyAscending(s) && s != []
    ensures v in s[1..] <==> v in s && v != s[0]
  {
    if v in s && v != s[0] {
      var i :| 0 <= i < |s| && s[i] == v;
      assert s[1..][i - 1] == v;
    }
    if v in s[1..] {
      var i :| 0 <= i < |s| - 1 && s[1..][i] == v;
      assert s[i + 1] == v;
    }
  }
}
