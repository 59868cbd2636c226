/** The block pool, one list of blocks a level, used by one thread. */
module Pool {
  import opened Decimal
  import PoolBuilder

  type Id = nat

  /** A block and its `taken` flag; the id stands for its address. */
  datatype Block = Block(id: Id, taken: bool)

  /** `static_cast<int>`. */
  function AsInt(x: nat): int {
    var low := x % UINT32_RANGE;
    if low < INT_LIMIT then low else low - UINT32_RANGE
  }

  /** The blocks that hold objects. */
  function Taken(blocks: seq<Block>): seq<Block> {
    if blocks == [] then []
    else if blocks[0].taken then [blocks[0]] + Taken(blocks[1..])
    else Taken(blocks[1..])
  }

  function FirstFree(blocks: seq<Block>): (k: nat)
    ensures k <= |blocks|
    ensures forall i | 0 <= i < k :: blocks[i].taken
    ensures k < |blocks| ==> !blocks[k].taken
  {
    if blocks == [] || !blocks[0].taken then 0 else 1 + FirstFree(blocks[1..])
  }

  /** A block is taken and spliced to the end. */
  function Moved(blocks: seq<Block>, k: nat): seq<Block>
    requires k < |blocks|
  {
    blocks[..k] + blocks[k + 1..] + [Block(blocks[k].id, true)]
  }

  /** The first free block, or else a new one, is taken and goes to the end. */
  function Allocated(blocks: seq<Block>, unused: Id): (after: seq<Block>)
    ensures after != []
  {
    var k := FirstFree(blocks);
    if k == |blocks| then blocks + [Block(unused, true)]
    else Moved(blocks, k)
  }

  function WithFlag(blocks: seq<Block>, id: Id, taken: bool): seq<Block> {
    seq(|blocks|, i requires 0 <= i < |blocks| => if blocks[i].id == id then Block(id, taken) else blocks[i])
  }

  /** Free blocks are removed from the front on, up to a number. */
  function Trimmed(blocks: seq<Block>, surplus: nat): seq<Block> {
    if blocks == [] || surplus == 0 then blocks
    else if blocks[0].taken then [blocks[0]] + Trimmed(blocks[1..], surplus)
    else Trimmed(blocks[1..], surplus - 1)
  }

  function FreshBlocks(count: nat, next: Id): seq<Block> {
    if count == 0 then [] else [Block(next + count - 1, false)] + FreshBlocks(count - 1, next)
  }

  function Extra(blocks: seq<Block>, count: nat): int {
    AsInt(count) - AsInt(|blocks|)
  }

  function Resized(blocks: seq<Block>, count: nat, next: Id): seq<Block> {
    var extra := Extra(blocks, count);
    if extra >= 0 then FreshBlocks(extra, next) + blocks else Trimmed(blocks, -extra)
  }

  /** Blocks of a level have different addresses. */
  predicate Distinct(blocks: seq<Block>, next: Id) {
    && (forall i | 0 <= i < |blocks| :: blocks[i].id < next)
    && forall i, j | 0 <= i < j < |blocks| :: blocks[i].id != blocks[j].id
  }

  /** One level: the list of the blocks of one size. */
  class Level {
    const size: nat
    var blocks: seq<Block>
    var next: Id

    predicate Valid()
      reads this
    {
      Distinct(blocks, next)
    }

    constructor (size: nat, blockCount: nat)
      ensures Valid() && this.size == size && blocks == FreshBlocks(blockCount, 0)
    {
      this.size := size;
      blocks := FreshBlocks(blockCount, 0);
      next := blockCount;
      new;
      FreshAre(blockCount, 0);
    }

    /** `test_and_set`. */
    method TestAndSet(i: nat) returns (was: bool)
      requires i < |blocks|
      modifies this`blocks
      ensures was == old(blocks[i].taken)
      ensures blocks == old(blocks)[i := Block(old(blocks[i].id), true)]
    {
      was := blocks[i].taken;
      blocks := blocks[i := Block(blocks[i].id, true)];
    }

    method Allocate(throws: bool) returns (id: Id)
      requires Valid()
      modifies this
      ensures Valid()
      ensures var after := Allocated(old(blocks), old(next));
        id == after[|after| - 1].id && blocks == if throws then WithFlag(after, id, false) else after
    {
      hide Distinct;
      var i := 0;
      while i < |blocks|
        invariant i <= |blocks| && blocks == old(blocks) && next == old(next)
        invariant forall j | 0 <= j < i :: blocks[j].taken
      {
        var was := TestAndSet(i);
        if !was {
          blocks := blocks[..i] + blocks[i + 1..] + [blocks[i]];
          break;
        }
        assert blocks == old(blocks);
        i := i + 1;
      }
      FirstFreeIs(old(blocks), i);
      if i == |blocks| {
        blocks := blocks + [Block(next, true)];
        next := next + 1;
      }
      assert blocks == Allocated(old(blocks), old(next));
      AllocatedDistinct(old(blocks), old(next));
      id := blocks[|blocks| - 1].id;
      if throws {
        FlagDistinct(blocks, id, false, next);
        blocks := WithFlag(blocks, id, false);
      }
    }

    method Deallocate(id: Id)
      requires Valid()
      modifies this`blocks
      ensures Valid() && blocks == WithFlag(old(blocks), id, false)
    {
      FlagDistinct(blocks, id, false, next);
      blocks := WithFlag(blocks, id, false);
    }

    /** `remove_if` with a predicate that sets the flag of every block it looks at, while there is a surplus. */
    method RemoveFree(surplus: nat)
      requires Valid()
      modifies this`blocks
      ensures Valid() && blocks == Trimmed(old(blocks), surplus)
    {
      hide Distinct;
      var kept: seq<Block>, i, left := [], 0, surplus;
      while i < |blocks|
        invariant i <= |blocks| == |old(blocks)| && blocks[i..] == old(blocks)[i..]
        invariant kept + Trimmed(blocks[i..], left) == Trimmed(old(blocks), surplus)
      {
        ghost var rest := blocks[i..];
        var block, remove := blocks[i], false;
        assert rest[0] == block && rest[1..] == old(blocks)[i + 1..];
        if left > 0 {
          var was := TestAndSet(i);
          remove := !was;
        }
        if remove {
          left := left - 1;
        } else {
          kept := kept + [block];
        }
        i := i + 1;
        assert blocks[i..] == rest[1..];
      }
      assert blocks[i..] == [] && kept + [] == kept;
      blocks := kept;
      TrimmedDistinct(old(blocks), surplus, next);
    }

    method Resize(count: nat)
      requires Valid() && count > 0
      modifies this
      ensures Valid() && blocks == Resized(old(blocks), count, old(next))
    {
      hide Distinct, Extra;
      var extra := Extra(blocks, count);
      if extra > 0 {
        AddFront(extra);
      } else if extra < 0 {
        RemoveFree(-extra);
      }
      assert FreshBlocks(0, next) + old(blocks) == old(blocks);
    }

    /** `emplace_front`, over and over. */
    method AddFront(extra: nat)
      requires Valid()
      modifies this
      ensures Valid() && blocks == FreshBlocks(extra, old(next)) + old(blocks)
    {
      hide Distinct;
      var added := 0;
      while added < extra
        invariant added <= extra && next == old(next) + added
        invariant blocks == FreshBlocks(added, old(next)) + old(blocks)
      {
        blocks := [Block(next, false)] + blocks;
        next := next + 1;
        added := added + 1;
        assert FreshBlocks(added, old(next)) == [Block(next - 1, false)] + FreshBlocks(added - 1, old(next));
      }
      FreshDistinct(old(blocks), extra, old(next));
    }
  }

  /** The levels of a pool; each is the base of the one before it. */
  class Pool {
    const levels: seq<Level>

    predicate Valid()
      reads this, levels
    {
      && (forall k | 0 <= k < |levels| :: levels[k].Valid())
      && forall i, j | 0 <= i < j < |levels| :: levels[i] != levels[j]
    }

    function Sizes(): seq<nat> {
      seq(|levels|, k requires 0 <= k < |levels| => levels[k].size)
    }

    constructor (sizes: seq<nat>, blockCount: nat)
      ensures Valid() && Sizes() == sizes && fresh(levels)
      ensures forall k | 0 <= k < |levels| :: |levels[k].blocks| == blockCount && Taken(levels[k].blocks) == []
    {
      var all: seq<Level>, k := [], 0;
      while k < |sizes|
        invariant k == |all| <= |sizes| && fresh(all)
        invariant forall i | 0 <= i < k ::
          all[i].Valid() && all[i].size == sizes[i] && all[i].blocks == FreshBlocks(blockCount, 0)
        invariant forall i, j | 0 <= i < j < k :: all[i] != all[j]
      {
        var level := new Level(sizes[k], blockCount);
        all := all + [level];
        k := k + 1;
      }
      levels := all;
      new;
      FreshAre(blockCount, 0);
    }

    /** `MakeUnique` and `MakeShared`: the level is found at compile time. */
    method Make(size: nat, throws: bool) returns (k: nat, id: Id)
      requires Valid() && PoolBuilder.SuitableLevel(Sizes(), size) < |levels|
      modifies levels
      ensures Valid() && k == PoolBuilder.SuitableLevel(Sizes(), size)
      ensures var after := Allocated(old(levels[k].blocks), old(levels[k].next));
        id == after[|after| - 1].id && levels[k].blocks == if throws then WithFlag(after, id, false) else after
      ensures forall i | 0 <= i < |levels| && i != k :: levels[i].blocks == old(levels[i].blocks)
    {
      k := PoolBuilder.SuitableLevel(Sizes(), size);
      id := levels[k].Allocate(throws);
    }

    /** `ShrinkToFit` of a level, after its base. */
    method ShrinkToFit(k: nat)
      requires Valid() && k <= |levels|
      modifies levels
      ensures Valid()
      ensures forall i | 0 <= i < |levels| ::
        levels[i].blocks == if i < k then old(levels[i].blocks) else Taken(old(levels[i].blocks))
      decreases |levels| - k
    {
      hide Distinct, Taken, Trimmed;
      if k < |levels| {
        ShrinkToFit(k + 1);
        TrimmedAll(levels[k].blocks, |levels[k].blocks|);
        levels[k].RemoveFree(|levels[k].blocks|);
      }
    }

    /** `Resize` of a level, after its base. */
    method Resize(k: nat, count: nat)
      requires Valid() && k <= |levels| && count > 0
      modifies levels
      ensures Valid()
      ensures forall i | 0 <= i < |levels| ::
        levels[i].blocks == if i < k then old(levels[i].blocks)
                            else Resized(old(levels[i].blocks), count, old(levels[i].next))
      ensures forall i | 0 <= i < k :: levels[i].next == old(levels[i].next)
      decreases |levels| - k
    {
      hide Distinct, Resized;
      if k < |levels| {
        Resize(k + 1, count);
        levels[k].Resize(count);
      }
    }
  }

  // ----- the lists -----

  lemma {:induction false} FreshAre(count: nat, next: Id)
    ensures |FreshBlocks(count, next)| == count && Taken(FreshBlocks(count, next)) == []
    ensures Distinct(FreshBlocks(count, next), next + count)
    ensures forall i | 0 <= i < count :: FreshBlocks(count, next)[i].id >= next
  {
    if count > 0 {
      FreshAre(count - 1, next);
    }
  }

  lemma FirstFreeIs(blocks: seq<Block>, k: nat)
    requires k <= |blocks| && (forall i | 0 <= i < k :: blocks[i].taken) && (k < |blocks| ==> !blocks[k].taken)
    ensures FirstFree(blocks) == k
  {
  }

  lemma FreshDistinct(blocks: seq<Block>, count: nat, next: Id)
    requires Distinct(blocks, next)
    ensures Distinct(FreshBlocks(count, next) + blocks, next + count)
  {
    FreshAre(count, next);
  }

  lemma FlagDistinct(blocks: seq<Block>, id: Id, taken: bool, next: Id)
    requires Distinct(blocks, next)
    ensures Distinct(WithFlag(blocks, id, taken), next)
  {
  }

  lemma AllocatedDistinct(blocks: seq<Block>, next: Id)
    requires Distinct(blocks, next)
    ensures Distinct(Allocated(blocks, next), next + 1)
    ensures FirstFree(blocks) < |blocks| ==> Distinct(Allocated(blocks, next), next)
  {
    hide FirstFree, Distinct, Moved;
    if FirstFree(blocks) < |blocks| {
      MovedDistinct(blocks, FirstFree(blocks), next);
      LargerNext(Allocated(blocks, next), next);
    } else {
      AppendedDistinct(blocks, next);
    }
  }

  lemma LargerNext(blocks: seq<Block>, next: Id)
    requires Distinct(blocks, next)
    ensures Distinct(blocks, next + 1)
  {
  }

  lemma AppendedDistinct(blocks: seq<Block>, next: Id)
    requires Distinct(blocks, next)
    ensures Distinct(blocks + [Block(next, true)], next + 1)
  {
  }

  lemma MovedDistinct(blocks: seq<Block>, k: nat, next: Id)
    requires Distinct(blocks, next) && k < |blocks|
    ensures Distinct(Moved(blocks, k), next)
  {
    var after, last := Moved(blocks, k), |blocks| - 1;
    assert forall i | 0 <= i < k :: after[i] == blocks[i];
    assert forall i | k <= i < last :: after[i] == blocks[i + 1];
    forall i, j | 0 <= i < j < |after|
      ensures after[i].id != after[j].id
    {
      var from := if i < k then i else i + 1;
      var to := if j == last then k else if j < k then j else j + 1;
      assert after[i].id == blocks[from].id && after[j].id == blocks[to].id;
    }
  }

  lemma {:induction false} TrimmedDistinct(blocks: seq<Block>, surplus: nat, next: Id)
    requires Distinct(blocks, next)
    ensures Distinct(Trimmed(blocks, surplus), next)
    ensures forall b | b in Trimmed(blocks, surplus) :: b in blocks
  {
    if blocks != [] && surplus > 0 {
      var left := if blocks[0].taken then surplus else surplus - 1;
      TrimmedDistinct(blocks[1..], left, next);
      assert blocks == [blocks[0]] + blocks[1..];
      var rest := Trimmed(blocks[1..], left);
      forall j | 0 <= j < |rest|
        ensures rest[j].id != blocks[0].id
      {
        assert rest[j] in blocks[1..];
      }
    }
  }

  function FreeCount(blocks: seq<Block>): nat {
    if blocks == [] then 0 else (if blocks[0].taken then 0 else 1) + FreeCount(blocks[1..])
  }

  lemma {:induction false} Counts(blocks: seq<Block>)
    ensures |Taken(blocks)| + FreeCount(blocks) == |blocks|
  {
    if blocks != [] {
      Counts(blocks[1..]);
    }
  }

  /** Trimming keeps the blocks that hold objects, in their order, and removes as many free ones as it can. */
  lemma {:induction false} TrimmedKeeps(blocks: seq<Block>, surplus: nat)
    ensures Taken(Trimmed(blocks, surplus)) == Taken(blocks)
    ensures |Trimmed(blocks, surplus)| == |blocks| - if surplus < FreeCount(blocks) then surplus else FreeCount(blocks)
  {
    if blocks != [] && surplus > 0 {
      TrimmedKeeps(blocks[1..], if blocks[0].taken then surplus else surplus - 1);
    }
  }

  lemma {:induction false} TrimmedAll(blocks: seq<Block>, surplus: nat)
    requires surplus >= |blocks|
    ensures Trimmed(blocks, surplus) == Taken(blocks)
  {
    if blocks != [] {
      TrimmedAll(blocks[1..], if blocks[0].taken then surplus else surplus - 1);
    }
  }

  // ----- sizing -----

  function Max(a: nat, b: nat): nat {
    if a > b then a else b
  }

  /** The casts of both sizes wrap alike, so that the difference taken is the one meant. */
  predicate CastAlike(a: nat, b: nat) {
    (a + INT_LIMIT) / UINT32_RANGE == (b + INT_LIMIT) / UINT32_RANGE
  }

  /**
   `Resize` leaves as many blocks as asked for, or as hold objects if these are more, just if the casts wrap alike,
   or only blocks with objects are wanted and left. For lists below 2^31: just if the number is below 2^31.
   */
  lemma ResizedCount(blocks: seq<Block>, count: nat, next: Id)
    ensures |Resized(blocks, count, next)| == Max(count, |Taken(blocks)|)
       <==> CastAlike(count, |blocks|)
            || (count <= |Taken(blocks)| && |blocks| + Extra(blocks, count) <= |Taken(blocks)|)
    ensures |blocks| < INT_LIMIT ==>
      |Resized(blocks, count, next)| < INT_LIMIT
      && (|Resized(blocks, count, next)| == Max(count, |Taken(blocks)|) <==> count < INT_LIMIT)
  {
    hide AsInt, Trimmed, Taken, FreshBlocks, CastAlike;
    Counts(blocks);
    AsIntIs(count);
    AsIntIs(|blocks|);
    CastsDiffer(count, |blocks|);
    var extra := Extra(blocks, count);
    if extra >= 0 {
      FreshAre(extra, next);
    } else {
      TrimmedKeeps(blocks, -extra);
    }
  }

  lemma CastsDiffer(a: nat, b: nat)
    ensures CastAlike(a, b) <==> AsInt(a) - AsInt(b) == a - b
  {
    CastTakes(a);
    CastTakes(b);
  }

  lemma CastTakes(x: nat)
    ensures AsInt(x) == x - (x + INT_LIMIT) / UINT32_RANGE * UINT32_RANGE
  {
  }

  lemma AsIntIs(x: nat)
    ensures x < INT_LIMIT ==> AsInt(x) == x
    ensures AsInt(x) < INT_LIMIT
  {
  }

  /** The blocks that hold no object. */
  function Free(blocks: seq<Block>): seq<Block> {
    if blocks == [] then []
    else if blocks[0].taken then Free(blocks[1..])
    else [blocks[0]] + Free(blocks[1..])
  }

  /** The free blocks that go are the first ones. */
  lemma {:induction false} TrimmedFromFront(blocks: seq<Block>, surplus: nat)
    ensures Free(Trimmed(blocks, surplus)) == Free(blocks)[if surplus < |Free(blocks)| then surplus else |Free(blocks)|..]
  {
    if blocks != [] && surplus > 0 {
      TrimmedFromFront(blocks[1..], if blocks[0].taken then surplus else surplus - 1);
    }
  }

  /** No block that holds an object is lost by resizing. */
  lemma ResizedKeeps(blocks: seq<Block>, count: nat, next: Id)
    ensures Taken(Resized(blocks, count, next)) == Taken(blocks)
  {
    var extra := Extra(blocks, count);
    if extra >= 0 {
      FreshAre(extra, next);
      TakenConcat(FreshBlocks(extra, next), blocks);
    } else {
      TrimmedKeeps(blocks, -extra);
    }
  }

  lemma {:induction false} TakenConcat(a: seq<Block>, b: seq<Block>)
    ensures Taken(a + b) == Taken(a) + Taken(b)
  {
    if a == [] {
      assert a + b == b;
    } else {
      TakenConcat(a[1..], b);
      assert (a + b)[1..] == a[1..] + b;
    }
  }

  // ----- what allocation hands out -----

  /** The block handed out held no object, and now the blocks that hold one are those before and it. */
  lemma HandsOut(blocks: seq<Block>, next: Id)
    requires Distinct(blocks, next)
    ensures var after := Allocated(blocks, next);
      var block := after[|after| - 1];
      && block.taken && (forall b | b in Taken(blocks) :: b.id != block.id)
      && Taken(after) == Taken(blocks) + [block]
    ensures Taken(blocks) == blocks ==> Allocated(blocks, next) == blocks + [Block(next, true)]
    ensures forall k | 0 <= k < |blocks| && !blocks[k].taken && Taken(blocks[..k]) == blocks[..k] ::
      Allocated(blocks, next) == blocks[..k] + blocks[k + 1..] + [Block(blocks[k].id, true)]
  {
    hide Moved, Taken, FirstFree;
    AllTaken(blocks);
    FirstFreeOnly(blocks, next);
    var k := FirstFree(blocks);
    TakenAre(blocks);
    if k == |blocks| {
      AppendedTaken(blocks, Block(next, true));
    } else {
      MovedTaken(blocks, k);
    }
  }

  lemma {:induction false} AllTaken(blocks: seq<Block>)
    ensures |Taken(blocks)| <= |blocks|
    ensures Taken(blocks) == blocks <==> forall i | 0 <= i < |blocks| :: blocks[i].taken
  {
    if blocks != [] {
      AllTaken(blocks[1..]);
      assert blocks == [blocks[0]] + blocks[1..];
      assert forall i | 0 < i < |blocks| :: blocks[i] == blocks[1..][i - 1];
    }
  }

  /** The first free block is used again, and the others keep their order. */
  lemma FirstFreeOnly(blocks: seq<Block>, next: Id)
    ensures forall k | 0 <= k < |blocks| && !blocks[k].taken && Taken(blocks[..k]) == blocks[..k] ::
      Allocated(blocks, next) == blocks[..k] + blocks[k + 1..] + [Block(blocks[k].id, true)]
  {
    hide Taken;
    forall k | 0 <= k < |blocks| && !blocks[k].taken && Taken(blocks[..k]) == blocks[..k]
      ensures Allocated(blocks, next) == blocks[..k] + blocks[k + 1..] + [Block(blocks[k].id, true)]
    {
      AllTaken(blocks[..k]);
      assert forall i | 0 <= i < k :: blocks[i] == blocks[..k][i];
      FirstFreeIs(blocks, k);
    }
  }

  lemma AppendedTaken(blocks: seq<Block>, block: Block)
    requires block.taken
    ensures Taken(blocks + [block]) == Taken(blocks) + [block]
  {
    TakenConcat(blocks, [block]);
  }

  lemma MovedTaken(blocks: seq<Block>, k: nat)
    requires k < |blocks| && !blocks[k].taken
    ensures |Moved(blocks, k)| == |blocks| && Moved(blocks, k)[|blocks| - 1] == Block(blocks[k].id, true)
    ensures Taken(Moved(blocks, k)) == Taken(blocks) + [Block(blocks[k].id, true)]
  {
    var block := Block(blocks[k].id, true);
    AppendedTaken(blocks[..k] + blocks[k + 1..], block);
    TakenConcat(blocks[..k], blocks[k + 1..]);
    TakenConcat(blocks[..k], blocks[k..]);
    assert blocks == blocks[..k] + blocks[k..];
  }

  lemma {:induction false} TakenAre(blocks: seq<Block>)
    ensures forall b :: b in Taken(blocks) <==> b in blocks && b.taken
  {
    if blocks != [] {
      TakenAre(blocks[1..]);
      assert blocks == [blocks[0]] + blocks[1..];
    }
  }

  function Without(blocks: seq<Block>, id: Id): seq<Block> {
    if blocks == [] then []
    else if blocks[0].id == id then Without(blocks[1..], id)
    else [blocks[0]] + Without(blocks[1..], id)
  }

  /** Clearing a flag removes just that block from those that hold objects. */
  lemma {:induction false} Released(blocks: seq<Block>, id: Id)
    ensures Taken(WithFlag(blocks, id, false)) == Without(Taken(blocks), id)
  {
    if blocks != [] {
      Released(blocks[1..], id);
      assert WithFlag(blocks, id, false)[0] == if blocks[0].id == id then Block(id, false) else blocks[0];
      assert ([blocks[0]] + Taken(blocks[1..]))[1..] == Taken(blocks[1..]);
      assert WithFlag(blocks, id, false)[1..] == WithFlag(blocks[1..], id, false);
    }
  }

  lemma {:induction false} WithoutStranger(blocks: seq<Block>, id: Id)
    requires forall b | b in blocks :: b.id != id
    ensures Without(blocks + [Block(id, true)], id) == blocks
  {
    if blocks == [] {
      assert blocks + [Block(id, true)] == [Block(id, true)];
    } else {
      WithoutStranger(blocks[1..], id);
      assert (blocks + [Block(id, true)])[1..] == blocks[1..] + [Block(id, true)];
      assert blocks == [blocks[0]] + blocks[1..];
    }
  }

  /** Deallocation undoes allocation, and so does a constructor that throws, but for the order and number of blocks. */
  lemma DeallocateUndoes(blocks: seq<Block>, next: Id)
    requires Distinct(blocks, next)
    ensures var after := Allocated(blocks, next);
      Taken(WithFlag(after, after[|after| - 1].id, false)) == Taken(blocks)
  {
    var after := Allocated(blocks, next);
    HandsOut(blocks, next);
    Released(after, after[|after| - 1].id);
    WithoutStranger(Taken(blocks), after[|after| - 1].id);
  }
}
