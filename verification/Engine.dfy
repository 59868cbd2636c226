/** Rolling the dice and counting successes. */
module Engine {
  import opened Decimal
  import opened Messages

  const MIN_VALUE: uint32 := 1

  function MaxValue(kind: DieType): uint32 {
    match kind
    case D4 => 4
    case D6 => 6
    case D8 => 8
    case D10 => 10
    case D12 => 12
    case D16 => 16
    case D20 => 20
    case D100 => 100
  }

  /** A die has as many sides as its name says. */
  lemma SidesOfName(kind: DieType)
    ensures TypeName(kind) == "D" + ToString(MaxValue(kind))
  {
    hide ToString;
    ShortNumber(MaxValue(kind));
  }

  lemma ShortNumber(n: nat)
    ensures n < 10 ==> ToString(n) == [DigitChar(n)]
    ensures 10 <= n < 100 ==> ToString(n) == [DigitChar(n / 10), DigitChar(n % 10)]
    ensures 100 <= n < 1000 ==> ToString(n) == [DigitChar(n / 100), DigitChar(n / 10 % 10), DigitChar(n % 10)]
  {
  }

  predicate IsSorted(s: seq<uint32>) {
    forall i, j | 0 <= i < j < |s| :: s[i] <= s[j]
  }

  function InsertSorted(x: uint32, s: seq<uint32>): seq<uint32> {
    if s == [] || x <= s[0] then [x] + s else [s[0]] + InsertSorted(x, s[1..])
  }

  /** Stands for `std::sort`. */
  function Sorted(s: seq<uint32>): seq<uint32> {
    if s == [] then [] else InsertSorted(s[0], Sorted(s[1..]))
  }

  lemma {:induction false} InsertKeepsElements(x: uint32, s: seq<uint32>)
    ensures multiset(InsertSorted(x, s)) == multiset(s) + multiset{x}
  {
    if s != [] && x > s[0] {
      assert s == [s[0]] + s[1..];
      InsertKeepsElements(x, s[1..]);
    }
  }

  predicate AtLeast(s: seq<uint32>, low: uint32) {
    forall k | 0 <= k < |s| :: low <= s[k]
  }

  lemma {:induction false} InsertAtLeast(x: uint32, s: seq<uint32>, low: uint32)
    requires AtLeast(s, low) && low <= x
    ensures AtLeast(InsertSorted(x, s), low)
  {
    if s != [] && x > s[0] {
      InsertAtLeast(x, s[1..], low);
    }
  }

  lemma {:induction false} InsertKeepsOrder(x: uint32, s: seq<uint32>)
    requires IsSorted(s)
    ensures IsSorted(InsertSorted(x, s))
  {
    if s != [] && x > s[0] {
      InsertKeepsOrder(x, s[1..]);
      InsertAtLeast(x, s[1..], s[0]);
    }
  }

  lemma {:induction false} SortedIsSorted(s: seq<uint32>)
    ensures IsSorted(Sorted(s)) && multiset(Sorted(s)) == multiset(s)
  {
    if s != [] {
      SortedIsSorted(s[1..]);
      InsertKeepsOrder(s[0], Sorted(s[1..]));
      InsertKeepsElements(s[0], Sorted(s[1..]));
      assert s == [s[0]] + s[1..];
    }
  }

  /** A result the engine may produce for a cast: same dice, values in range, in order. */
  predicate IsRoll(cast: Cast, result: Cast) {
    && result.kind == cast.kind && |result.values| == |cast.values|
    && IsSorted(result.values)
    && forall k | 0 <= k < |result.values| :: MIN_VALUE <= result.values[k] <= MaxValue(cast.kind)
  }

  predicate InRange(draws: seq<uint32>, kind: DieType) {
    forall k | 0 <= k < |draws| :: MIN_VALUE <= draws[k] <= MaxValue(kind)
  }

  /** `draws` is what the random generator hands out, one value in range for each die. */
  method GenerateResult(cast: Cast, draws: seq<uint32>) returns (result: Cast)
    requires |draws| == |cast.values| && InRange(draws, cast.kind)
    ensures IsRoll(cast, result) && multiset(result.values) == multiset(draws)
    ensures forall i, j | 0 <= i < j < |result.values| :: result.values[i] <= result.values[j]
  {
    var values := cast.values;
    var i := 0;
    while i < |values|
      invariant i <= |values| == |cast.values|
      invariant values[..i] == draws[..i]
    {
      values := values[i := draws[i]];
      i := i + 1;
    }
    assert values == draws;
    SortedIsSorted(values);
    DrawsAreRoll(cast, draws);
    result := Cast(cast.kind, Sorted(values));
  }

  /** Every roll may come, and it is determined by the values drawn, whatever their order. */
  lemma EveryRollComes(cast: Cast, result: Cast)
    ensures IsRoll(cast, result) <==>
      exists draws :: |draws| == |cast.values| && InRange(draws, cast.kind) && result == Cast(cast.kind, Sorted(draws))
  {
    hide MaxValue;
    if IsRoll(cast, result) {
      SortedStays(result.values);
      assert result == Cast(cast.kind, Sorted(result.values));
    } else if exists draws :: |draws| == |cast.values| && InRange(draws, cast.kind) && result == Cast(cast.kind, Sorted(draws)) {
      var draws :| |draws| == |cast.values| && InRange(draws, cast.kind) && result == Cast(cast.kind, Sorted(draws));
      DrawsAreRoll(cast, draws);
    }
  }

  lemma {:induction false} SortedStays(s: seq<uint32>)
    requires IsSorted(s)
    ensures Sorted(s) == s
  {
    if s != [] {
      SortedStays(s[1..]);
      assert s == [s[0]] + s[1..];
    }
  }

  lemma DrawsAreRoll(cast: Cast, draws: seq<uint32>)
    requires |draws| == |cast.values| && InRange(draws, cast.kind)
    ensures IsRoll(cast, Cast(cast.kind, Sorted(draws)))
  {
    hide MaxValue;
    var sorted := Sorted(draws);
    SortedIsSorted(draws);
    assert |sorted| == |multiset(sorted)| == |draws|;
    forall k | 0 <= k < |sorted|
      ensures MIN_VALUE <= sorted[k] <= MaxValue(cast.kind)
    {
      assert sorted[k] in multiset(sorted);
      assert sorted[k] in draws;
    }
  }

  /** The dice that reach the threshold. */
  function Successes(values: seq<uint32>, threshold: uint32): set<nat> {
    set k: nat | k < |values| && values[k] >= threshold
  }

  /** Every die reaches the smallest value, none more than the largest, and who reaches a threshold reaches lower ones. */
  lemma SuccessesBetween(cast: Cast, low: uint32, high: uint32)
    requires IsRoll(cast, cast) && low <= high
    ensures Successes(cast.values, high) <= Successes(cast.values, low)
    ensures Successes(cast.values, low) - Successes(cast.values, high)
         == set k: nat | k < |cast.values| && low <= cast.values[k] < high
    ensures low <= MIN_VALUE ==> forall k: nat | k < |cast.values| :: k in Successes(cast.values, low)
    ensures high > MaxValue(cast.kind) ==> Successes(cast.values, high) == {}
  {
  }

  lemma SuccessesSnoc(values: seq<uint32>, i: nat, threshold: uint32)
    requires i < |values|
    ensures Successes(values[..i + 1], threshold)
         == Successes(values[..i], threshold) + if values[i] >= threshold then {i} else {}
  {
  }

  /** `GetSuccessCount`: the counting loop. */
  method CountSuccesses(cast: Cast, threshold: uint32) returns (count: nat)
    ensures count == |Successes(cast.values, threshold)|
  {
    count := 0;
    var i := 0;
    while i < |cast.values|
      invariant i <= |cast.values|
      invariant count == |Successes(cast.values[..i], threshold)|
    {
      SuccessesSnoc(cast.values, i, threshold);
      if cast.values[i] >= threshold {
        count := count + 1;
      }
      i := i + 1;
    }
    assert cast.values[..i] == cast.values;
  }

  lemma {:induction false} AtMostAll(values: seq<uint32>, threshold: uint32)
    ensures |Successes(values, threshold)| <= |values|
    decreases |values|
  {
    if values == [] {
      assert Successes(values, threshold) == {};
    } else {
      var i := |values| - 1;
      AtMostAll(values[..i], threshold);
      SuccessesSnoc(values, i, threshold);
      assert values[..i + 1] == values;
    }
  }
}
