/** Device addresses in the order of `std::map<std::string, ...>`. */
module Macs {

  type Mac = string

  /** `std::string::operator<`. */
  predicate Less(a: Mac, b: Mac) {
    if b == "" then false
    else if a == "" then true
    else if a[0] == b[0] then Less(a[1..], b[1..])
    else a[0] < b[0]
  }

  /** Two texts agree up to a position, where the first one ends or has the smaller character. */
  predicate FirstDiffers(a: Mac, b: Mac, n: nat) {
    n <= |a| && n < |b| && a[..n] == b[..n] && (n == |a| || a[n] < b[n])
  }

  lemma {:induction false} LessIs(a: Mac, b: Mac)
    ensures Less(a, b) <==> exists n: nat :: FirstDiffers(a, b, n)
  {
    if b == "" || a == "" {
      assert b != "" ==> FirstDiffers(a, b, 0);
    } else if a[0] == b[0] {
      LessIs(a[1..], b[1..]);
      forall n: nat
        ensures FirstDiffers(a, b, n + 1) <==> FirstDiffers(a[1..], b[1..], n)
      {
        DiffersLater(a, b, n);
      }
      assert !FirstDiffers(a, b, 0);
      if Less(a, b) {
        var n: nat :| FirstDiffers(a[1..], b[1..], n);
        assert FirstDiffers(a, b, n + 1);
      }
      if exists n: nat :: FirstDiffers(a, b, n) {
        var n: nat :| FirstDiffers(a, b, n);
        assert n != 0;
        var before: nat := n - 1;
        assert FirstDiffers(a, b, before + 1);
        assert FirstDiffers(a[1..], b[1..], before);
      }
    } else {
      assert a[0] < b[0] <==> FirstDiffers(a, b, 0);
      forall n: nat | n > 0
        ensures !FirstDiffers(a, b, n)
      {
        if n <= |a| && n < |b| {
          assert a[..n][0] != b[..n][0];
        }
      }
    }
  }

  lemma DiffersLater(a: Mac, b: Mac, n: nat)
    requires a != "" && b != "" && a[0] == b[0]
    ensures FirstDiffers(a, b, n + 1) <==> FirstDiffers(a[1..], b[1..], n)
  {
    if n + 1 <= |a| && n + 1 < |b| {
      assert a[..n + 1] == [a[0]] + a[1..][..n] && b[..n + 1] == [b[0]] + b[1..][..n];
      assert a[1..][..n] == a[..n + 1][1..] && b[1..][..n] == b[..n + 1][1..];
    }
  }

  lemma {:induction false} LessIrreflexive(a: Mac)
    ensures !Less(a, a)
  {
    if a != "" {
      LessIrreflexive(a[1..]);
    }
  }

  lemma {:induction false} LessTransitive(a: Mac, b: Mac, c: Mac)
    requires Less(a, b) && Less(b, c)
    ensures Less(a, c)
  {
    if a != "" && a[0] == b[0] && b[0] == c[0] {
      LessTransitive(a[1..], b[1..], c[1..]);
    }
  }

  lemma {:induction false} LessTotal(a: Mac, b: Mac)
    ensures a == b || Less(a, b) || Less(b, a)
  {
    if a != "" && b != "" && a[0] == b[0] {
      LessTotal(a[1..], b[1..]);
      assert a == [a[0]] + a[1..] && b == [b[0]] + b[1..];
    }
  }

  predicate IsLeast(keys: set<Mac>, m: Mac) {
    m in keys && forall k | k in keys && k != m :: Less(m, k)
  }

  lemma {:induction false} LeastExists(keys: set<Mac>)
    requires keys != {}
    ensures exists m :: IsLeast(keys, m)
    decreases keys
  {
    var some :| some in keys;
    var rest := keys - {some};
    if rest == {} {
      assert keys == {some};
      assert IsLeast(keys, some);
    } else {
      LeastExists(rest);
      var least :| IsLeast(rest, least);
      LessTotal(some, least);
      var m := if Less(some, least) then some else least;
      forall k | k in keys && k != m
        ensures Less(m, k)
      {
        if k in rest && k != least && m == some {
          LessTransitive(some, least, k);
        }
      }
      assert IsLeast(keys, m);
    }
  }

  lemma LeastIsUnique(keys: set<Mac>, a: Mac, b: Mac)
    requires IsLeast(keys, a) && IsLeast(keys, b)
    ensures a == b
  {
    if a != b {
      LessTransitive(a, b, a);
      LessIrreflexive(a);
    }
  }

  ghost function Least(keys: set<Mac>): (m: Mac)
    requires keys != {}
    ensures IsLeast(keys, m)
  {
    LeastExists(keys);
    var m :| IsLeast(keys, m);
    m
  }

  /** The keys of an ordered map from its beginning to its end. */
  ghost function SortedKeys(keys: set<Mac>): (s: seq<Mac>)
    ensures |s| == |keys|
    decreases |keys|
  {
    if keys == {} then [] else [Least(keys)] + SortedKeys(keys - {Least(keys)})
  }

  ghost predicate Ascending(s: seq<Mac>) {
    forall i, j | 0 <= i < j < |s| :: Less(s[i], s[j])
  }

  /** The keys come in order and each comes once. */
  lemma {:induction false} SortedKeysAscend(keys: set<Mac>)
    ensures Ascending(SortedKeys(keys))
    ensures forall m :: m in SortedKeys(keys) <==> m in keys
    decreases |keys|
  {
    if keys != {} {
      SortedKeysAscend(keys - {Least(keys)});
      var rest := SortedKeys(keys - {Least(keys)});
      assert forall k | 0 <= k < |rest| :: rest[k] in rest;
    }
  }

  /** How many keys come before a key of the map. */
  function Rank(keys: set<Mac>, m: Mac): nat {
    |set k | k in keys && Less(k, m)|
  }

  /** The key at an index has as many keys before it. */
  lemma {:induction false} RankOfSorted(keys: set<Mac>, index: nat)
    requires index < |keys|
    ensures SortedKeys(keys)[index] in keys && Rank(keys, SortedKeys(keys)[index]) == index
    decreases |keys|
  {
    var least := Least(keys);
    var rest := keys - {least};
    if index == 0 {
      LeastIsFirst(keys, least);
    } else {
      RankOfSorted(rest, index - 1);
      var m := SortedKeys(rest)[index - 1];
      assert m == SortedKeys(keys)[index];
      OneMoreBefore(keys, least, m);
    }
  }

  lemma LeastIsFirst(keys: set<Mac>, least: Mac)
    requires IsLeast(keys, least)
    ensures Rank(keys, least) == 0
  {
    forall k | k in keys
      ensures !Less(k, least)
    {
      if Less(k, least) {
        if k != least {
          LessTransitive(k, least, k);
        }
        LessIrreflexive(k);
      }
    }
    assert (set k | k in keys && Less(k, least)) == {};
  }

  lemma OneMoreBefore(keys: set<Mac>, least: Mac, m: Mac)
    requires IsLeast(keys, least) && m in keys && m != least
    ensures Rank(keys, m) == Rank(keys - {least}, m) + 1
  {
    var before := set k | k in keys && Less(k, m);
    assert before == (set k | k in keys - {least} && Less(k, m)) + {least};
  }

  /** Any two ascending listings of the same keys are the same: the order is determined by the set. */
  lemma {:induction false} AscendingIsSorted(keys: set<Mac>, s: seq<Mac>)
    requires Ascending(s) && forall m :: m in s <==> m in keys
    ensures s == SortedKeys(keys)
    decreases |s|
  {
    if s == [] {
      assert forall m :: m in keys ==> m in s;
      assert keys == {};
    } else {
      assert s[0] in s;
      assert IsLeast(keys, s[0]);
      LeastIsUnique(keys, s[0], Least(keys));
      var rest := keys - {s[0]};
      forall m
        ensures m in s[1..] <==> m in rest
      {
        LessIrreflexive(s[0]);
        assert s == [s[0]] + s[1..];
      }
      AscendingIsSorted(rest, s[1..]);
    }
  }

  /** The begin of an ordered map. */
  method First(keys: set<Mac>) returns (m: Mac)
    requires keys != {}
    ensures m == Least(keys)
  {
    var left := keys;
    m :| m in left;
    left := left - {m};
    while left != {}
      invariant left <= keys && m in keys && m !in left
      invariant forall k | k in keys - left && k != m :: Less(m, k)
      decreases left
    {
      var k :| k in left;
      left := left - {k};
      LessTotal(k, m);
      if Less(k, m) {
        forall x | x in keys - left && x != k
          ensures Less(k, x)
        {
          if x != m {
            LessTransitive(k, m, x);
          }
        }
        m := k;
      }
    }
    LeastIsUnique(keys, m, Least(keys));
  }

  /** `std::next(begin, index)`. */
  method Nth(keys: set<Mac>, index: nat) returns (m: Mac)
    requires index < |keys|
    ensures m == SortedKeys(keys)[index]
  {
    var rest := keys;
    var i := 0;
    while i < index
      invariant i <= index && |rest| == |keys| - i
      invariant SortedKeys(rest) == SortedKeys(keys)[i..]
    {
      var first := First(rest);
      ghost var s := SortedKeys(rest);
      rest := rest - {first};
      assert SortedKeys(rest) == s[1..];
      i := i + 1;
    }
    m := First(rest);
  }
}
