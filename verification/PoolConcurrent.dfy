/**
 One level of the pool with objects dying on other threads: every `test_and_set` and `clear` of a flag is a step,
 and the steps of the thread that owns the pool and of the others interleave freely.
 */
module PoolConcurrent {
  import opened Decimal
  import opened Pool

  type Object = nat

  /** What the owning thread is doing. */
  datatype Owner =
    | Ready
    | Allocating(i: nat)
    | Constructing(id: Id)
    | Removing(i: nat, left: nat)

  /** An object's block; `dying` once its destructor has run and the flag is about to be cleared. */
  datatype Holder = Holder(block: Id, dying: bool)

  datatype State = State(blocks: seq<Block>, next: Id, owner: Owner, objects: map<Object, Holder>, freed: set<Id>)

  datatype Step =
    | BeginAllocate
    | Scan                                  // one turn of the loop in Allocate
    | Construct(obj: Object, throws: bool)
    | BeginShrink
    | BeginResize(count: nat)
    | Examine                               // one call of the predicate of remove_if
    | Destroy(obj: Object)               // on any thread
    | Clear(obj: Object)                 // on the same thread, later

  function Initial(count: nat): State {
    State(FreshBlocks(count, 0), count, Ready, map[], {})
  }

  predicate Enabled(s: State, step: Step) {
    match step
    case BeginAllocate => s.owner.Ready?
    case Scan => s.owner.Allocating?
    case Construct(obj, _) => s.owner.Constructing? && obj !in s.objects
    case BeginShrink => s.owner.Ready?
    case BeginResize(count) => s.owner.Ready? && count > 0
    case Examine => s.owner.Removing?
    case Destroy(obj) => obj in s.objects && !s.objects[obj].dying
    case Clear(obj) => obj in s.objects && s.objects[obj].dying
  }

  function DoScan(s: State, i: nat): State {
    if i >= |s.blocks| then
      s.(blocks := s.blocks + [Block(s.next, true)], next := s.next + 1, owner := Constructing(s.next))
    else if s.blocks[i].taken then s.(owner := Allocating(i + 1))
    else s.(blocks := Moved(s.blocks, i), owner := Constructing(s.blocks[i].id))
  }

  function DoExamine(s: State, i: nat, left: nat): State {
    if i >= |s.blocks| || left == 0 then s.(owner := Ready)
    else if s.blocks[i].taken then s.(owner := Removing(i + 1, left))
    else
      s.(blocks := s.blocks[..i] + s.blocks[i + 1..], owner := Removing(i, left - 1), freed := s.freed + {s.blocks[i].id})
  }

  function Do(s: State, step: Step): State
    requires Enabled(s, step)
  {
    match step
    case BeginAllocate => s.(owner := Allocating(0))
    case Scan => DoScan(s, s.owner.i)
    case Construct(obj, throws) =>
      if throws then s.(blocks := WithFlag(s.blocks, s.owner.id, false), owner := Ready)
      else s.(objects := s.objects[obj := Holder(s.owner.id, false)], owner := Ready)
    case BeginShrink => s.(owner := Removing(0, |s.blocks|))
    case BeginResize(count) =>
      var extra := Extra(s.blocks, count);
      if extra >= 0 then s.(blocks := FreshBlocks(extra, s.next) + s.blocks, next := s.next + extra)
      else s.(owner := Removing(0, -extra))
    case Examine => DoExamine(s, s.owner.i, s.owner.left)
    case Destroy(obj) => s.(objects := s.objects[obj := s.objects[obj].(dying := true)])
    case Clear(obj) =>
      s.(blocks := WithFlag(s.blocks, s.objects[obj].block, false), objects := s.objects - {obj})
  }

  predicate IsRun(states: seq<State>, steps: seq<Step>, count: nat) {
    && |states| == |steps| + 1
    && states[0] == Initial(count)
    && forall k | 0 <= k < |steps| :: Enabled(states[k], steps[k]) && states[k + 1] == Do(states[k], steps[k])
  }

  // ----- the invariant -----

  predicate Held(s: State, id: Id) {
    s.owner == Constructing(id) || exists o :: o in s.objects && s.objects[o].block == id
  }

  /** Different objects have different blocks, all in the list and marked; nothing else is marked. */
  predicate Safe(s: State) {
    && Distinct(s.blocks, s.next)
    && (forall o | o in s.objects :: Block(s.objects[o].block, true) in s.blocks)
    && (forall o, p | o in s.objects && p in s.objects && o != p :: s.objects[o].block != s.objects[p].block)
    && (s.owner.Constructing? ==> Block(s.owner.id, true) in s.blocks)
    && (s.owner.Constructing? ==> forall o | o in s.objects :: s.objects[o].block != s.owner.id)
    && (forall b | b in s.blocks && b.taken :: Held(s, b.id))
    && (forall b | b in s.blocks :: b.id !in s.freed)
    && (forall id | id in s.freed :: id < s.next)
  }

  lemma SameId(blocks: seq<Block>, next: Id, a: Block, b: Block)
    requires Distinct(blocks, next) && a in blocks && b in blocks
    ensures a.id == b.id ==> a == b
  {
    var i :| 0 <= i < |blocks| && blocks[i] == a;
    var j :| 0 <= j < |blocks| && blocks[j] == b;
    assert a.id == b.id ==> i == j;
  }

  lemma MovedMembers(blocks: seq<Block>, i: nat, next: Id)
    requires Distinct(blocks, next) && i < |blocks|
    ensures forall b :: b in Moved(blocks, i) <==> b == Block(blocks[i].id, true) || (b in blocks && b != blocks[i])
  {
    assert blocks == blocks[..i] + [blocks[i]] + blocks[i + 1..];
    assert forall b | b in blocks[..i] || b in blocks[i + 1..] :: b != blocks[i];
  }

  lemma RemovedMembers(blocks: seq<Block>, i: nat, next: Id)
    requires Distinct(blocks, next) && i < |blocks|
    ensures Distinct(blocks[..i] + blocks[i + 1..], next)
    ensures forall b :: b in blocks[..i] + blocks[i + 1..] <==> b in blocks && b != blocks[i]
  {
    assert blocks == blocks[..i] + [blocks[i]] + blocks[i + 1..];
    assert forall b | b in blocks[..i] || b in blocks[i + 1..] :: b != blocks[i];
  }

  lemma FlagMembers(blocks: seq<Block>, id: Id, freed: set<Id>)
    requires forall b | b in blocks :: b.id !in freed
    ensures forall b | b in WithFlag(blocks, id, false) :: if b.id == id then !b.taken else b in blocks
    ensures forall b | b in blocks && b.id != id :: b in WithFlag(blocks, id, false)
    ensures forall b | b in WithFlag(blocks, id, false) :: b.id !in freed
  {
    var after := WithFlag(blocks, id, false);
    forall b | b in after
      ensures if b.id == id then !b.taken else b in blocks
      ensures b.id !in freed
    {
      var i :| 0 <= i < |after| && after[i] == b;
      assert blocks[i] in blocks && blocks[i].id == b.id;
    }
    forall b | b in blocks && b.id != id
      ensures b in after
    {
      var i :| 0 <= i < |blocks| && blocks[i] == b;
      assert after[i] == b;
    }
  }

  lemma FrontMembers(blocks: seq<Block>, count: nat, next: Id)
    requires Distinct(blocks, next)
    ensures Distinct(FreshBlocks(count, next) + blocks, next + count)
    ensures forall b | b in FreshBlocks(count, next) + blocks :: b in blocks || (!b.taken && b.id >= next)
  {
    FreshDistinct(blocks, count, next);
    FreshAre(count, next);
    TakenAre(FreshBlocks(count, next));
    forall b | b in FreshBlocks(count, next) + blocks && b !in blocks
      ensures !b.taken && b.id >= next
    {
      assert b in FreshBlocks(count, next);
    }
  }

  // ----- every step keeps it -----

  lemma ScanKeeps(s: State, i: nat)
    requires Safe(s) && s.owner == Allocating(i)
    ensures Safe(DoScan(s, i))
  {
    hide Distinct, Moved, Held;
    var t := DoScan(s, i);
    if i >= |s.blocks| {
      AppendedDistinct(s.blocks, s.next);
      BelowNext(s.blocks, s.next);
    } else if !s.blocks[i].taken {
      MovedDistinct(s.blocks, i, s.next);
      MovedMembers(s.blocks, i, s.next);
      FreeIsNotHeld(s, i);
    }
    HeldMoves(s, t);
  }

  lemma BelowNext(blocks: seq<Block>, next: Id)
    requires Distinct(blocks, next)
    ensures forall b | b in blocks :: b.id < next
  {
  }

  /** What is held stays held while only the owning thread moves on. */
  lemma HeldMoves(s: State, t: State)
    requires t.objects == s.objects && !s.owner.Constructing?
    ensures forall id | Held(s, id) :: Held(t, id)
    ensures t.owner.Constructing? ==> Held(t, t.owner.id)
  {
  }

  /** The flag of a block that a live object has is set, so the block is passed over. */
  lemma FreeIsNotHeld(s: State, i: nat)
    requires Safe(s) && i < |s.blocks| && !s.blocks[i].taken
    ensures forall o | o in s.objects :: s.objects[o].block != s.blocks[i].id
  {
    forall o | o in s.objects
      ensures s.objects[o].block != s.blocks[i].id
    {
      SameId(s.blocks, s.next, Block(s.objects[o].block, true), s.blocks[i]);
    }
  }

  lemma ExamineKeeps(s: State, i: nat, left: nat)
    requires Safe(s) && s.owner == Removing(i, left)
    ensures Safe(DoExamine(s, i, left))
  {
    hide Distinct, Held;
    var t := DoExamine(s, i, left);
    HeldMoves(s, t);
    if i < |s.blocks| && left > 0 && !s.blocks[i].taken {
      RemovalKeeps(s, t, i);
    }
  }

  lemma RemovalKeeps(s: State, t: State, i: nat)
    requires Safe(s) && i < |s.blocks| && !s.blocks[i].taken && !s.owner.Constructing? && !t.owner.Constructing?
    requires t.blocks == s.blocks[..i] + s.blocks[i + 1..] && t.next == s.next && t.objects == s.objects
    requires t.freed == s.freed + {s.blocks[i].id}
    requires forall id | Held(s, id) :: Held(t, id)
    ensures Safe(t)
  {
    hide Distinct, Held;
    RemovedMembers(s.blocks, i, s.next);
    BelowNext(s.blocks, s.next);
    OthersDiffer(s.blocks, i, s.next);
    assert s.blocks[i] in s.blocks;
    forall b | b in t.blocks
      ensures b.id !in t.freed && (b.taken ==> Held(t, b.id))
    {
      assert b in s.blocks && b != s.blocks[i];
    }
  }

  lemma OthersDiffer(blocks: seq<Block>, i: nat, next: Id)
    requires Distinct(blocks, next) && i < |blocks|
    ensures forall b | b in blocks && b != blocks[i] :: b.id != blocks[i].id
  {
  }

  lemma ClearKeeps(s: State, obj: Object)
    requires Safe(s) && Enabled(s, Clear(obj))
    ensures Safe(Do(s, Clear(obj)))
  {
    hide Distinct, WithFlag, Held;
    var id := s.objects[obj].block;
    FlagDistinct(s.blocks, id, false, s.next);
    FlagMembers(s.blocks, id, s.freed);
    StillHeld(s, Do(s, Clear(obj)), obj);
  }

  lemma StillHeld(s: State, t: State, obj: Object)
    requires obj in s.objects && t.owner == s.owner && t.objects == s.objects - {obj}
    ensures forall id | Held(s, id) && id != s.objects[obj].block :: Held(t, id)
  {
    forall id | Held(s, id) && id != s.objects[obj].block && s.owner != Constructing(id)
      ensures Held(t, id)
    {
      var o :| o in s.objects && s.objects[o].block == id;
      assert o in t.objects && t.objects[o].block == id;
    }
  }

  lemma ThrowKeeps(s: State, obj: Object)
    requires Safe(s) && Enabled(s, Construct(obj, true))
    ensures Safe(Do(s, Construct(obj, true)))
  {
    hide Distinct, WithFlag, Held;
    var t := Do(s, Construct(obj, true));
    FlagDistinct(s.blocks, s.owner.id, false, s.next);
    FlagMembers(s.blocks, s.owner.id, s.freed);
    HeldByObjects(s, t);
  }

  lemma HeldByObjects(s: State, t: State)
    requires t.objects == s.objects && s.owner.Constructing?
    ensures forall id | Held(s, id) && id != s.owner.id :: Held(t, id)
  {
  }

  lemma ConstructKeeps(s: State, obj: Object)
    requires Safe(s) && Enabled(s, Construct(obj, false))
    ensures Safe(Do(s, Construct(obj, false)))
  {
    hide Distinct, Held;
    ObjectHolds(s, Do(s, Construct(obj, false)), obj);
  }

  lemma ObjectHolds(s: State, t: State, obj: Object)
    requires s.owner.Constructing? && obj !in s.objects && t.objects == s.objects[obj := Holder(s.owner.id, false)]
    ensures forall id | Held(s, id) :: Held(t, id)
  {
    assert t.objects[obj].block == s.owner.id;
    forall id | Held(s, id) && id != s.owner.id
      ensures Held(t, id)
    {
      var o :| o in s.objects && s.objects[o].block == id;
      assert o in t.objects && t.objects[o].block == id;
    }
  }

  lemma ResizeKeeps(s: State, count: nat)
    requires Safe(s) && s.owner.Ready? && count > 0
    ensures Safe(Do(s, BeginResize(count)))
  {
    hide Distinct, Held, Extra;
    var extra := Extra(s.blocks, count);
    if extra >= 0 {
      FrontMembers(s.blocks, extra, s.next);
    }
    HeldMoves(s, Do(s, BeginResize(count)));
  }

  lemma DestroyKeeps(s: State, obj: Object)
    requires Safe(s) && Enabled(s, Destroy(obj))
    ensures Safe(Do(s, Destroy(obj)))
  {
    hide Distinct;
    var t := Do(s, Destroy(obj));
    forall id | Held(s, id)
      ensures Held(t, id)
    {
      if s.owner != Constructing(id) {
        var o :| o in s.objects && s.objects[o].block == id;
        assert t.objects[o].block == id;
      }
    }
  }

  lemma StepKeeps(s: State, step: Step)
    requires Safe(s) && Enabled(s, step)
    ensures Safe(Do(s, step))
  {
    hide Distinct, Held, DoScan, DoExamine, Extra;
    match step
    case BeginAllocate => HeldMoves(s, Do(s, step));
    case Scan => ScanKeeps(s, s.owner.i);
    case Construct(obj, throws) => if throws { ThrowKeeps(s, obj); } else { ConstructKeeps(s, obj); }
    case BeginShrink => HeldMoves(s, Do(s, step));
    case BeginResize(count) => ResizeKeeps(s, count);
    case Examine => ExamineKeeps(s, s.owner.i, s.owner.left);
    case Destroy(obj) => DestroyKeeps(s, obj);
    case Clear(obj) => ClearKeeps(s, obj);
  }

  lemma InitialSafe(count: nat)
    ensures Safe(Initial(count))
  {
    FreshAre(count, 0);
    TakenAre(FreshBlocks(count, 0));
  }

  lemma {:induction false} RunKeeps(states: seq<State>, steps: seq<Step>, count: nat, k: nat)
    requires IsRun(states, steps, count) && k < |states|
    ensures Safe(states[k])
  {
    hide Safe, Do;
    if k == 0 {
      InitialSafe(count);
    } else {
      RunKeeps(states, steps, count, k - 1);
      StepKeeps(states[k - 1], steps[k - 1]);
      assert states[(k - 1) + 1] == Do(states[k - 1], steps[k - 1]);
    }
  }

  /** In every run different objects have different blocks, and none of them has been removed from the list. */
  lemma LiveBlocksStay(states: seq<State>, steps: seq<Step>, count: nat, k: nat, a: Object)
    requires IsRun(states, steps, count) && k < |states| && a in states[k].objects
    ensures Block(states[k].objects[a].block, true) in states[k].blocks
    ensures states[k].objects[a].block !in states[k].freed
    ensures forall b | b in states[k].objects && b != a :: states[k].objects[b].block != states[k].objects[a].block
  {
    RunKeeps(states, steps, count, k);
  }

  /** In every run a block is handed out only while no object, not even a dying one, has it. */
  lemma HandedOutIsFree(states: seq<State>, steps: seq<Step>, count: nat, k: nat)
    requires IsRun(states, steps, count) && k + 1 < |states|
    requires !states[k].owner.Constructing? && states[k + 1].owner.Constructing?
    ensures forall o | o in states[k].objects :: states[k].objects[o].block != states[k + 1].owner.id
    ensures states[k + 1].owner.id !in states[k].freed
  {
    RunKeeps(states, steps, count, k + 1);
    assert states[k + 1] == Do(states[k], steps[k]);
  }

  /** An object keeps its block from construction to the clearing of the flag. */
  lemma BlockIsKept(s: State, step: Step, o: Object)
    requires Safe(s) && Enabled(s, step) && o in s.objects && step != Clear(o)
    ensures o in Do(s, step).objects && Do(s, step).objects[o].block == s.objects[o].block
  {
    hide Safe;
  }

  /** With nothing under construction the marked blocks are just the blocks of the objects: no block leaks. */
  lemma MarkedIsHeld(states: seq<State>, steps: seq<Step>, count: nat, k: nat, b: Block)
    requires IsRun(states, steps, count) && k < |states| && b in states[k].blocks && !states[k].owner.Constructing?
    ensures b.taken <==> exists o :: o in states[k].objects && states[k].objects[o].block == b.id
  {
    RunKeeps(states, steps, count, k);
    var s := states[k];
    if exists o :: o in s.objects && s.objects[o].block == b.id {
      var o :| o in s.objects && s.objects[o].block == b.id;
      SameId(s.blocks, s.next, b, Block(b.id, true));
    }
  }

  /** Objects die at any time, and the owning thread never waits: nobody's next step depends on the others. */
  lemma NobodyWaits(s: State, o: Object)
    ensures o in s.objects ==> (Enabled(s, Destroy(o)) <==> !s.objects[o].dying)
    ensures o in s.objects ==> (Enabled(s, Clear(o)) <==> s.objects[o].dying)
    ensures s.owner.Ready? ==> Enabled(s, BeginAllocate) && Enabled(s, BeginShrink) && Enabled(s, BeginResize(o + 1))
    ensures s.owner.Constructing? && o !in s.objects ==> Enabled(s, Construct(o, true)) && Enabled(s, Construct(o, false))
    ensures s.owner.Allocating? ==> Enabled(s, Scan)
    ensures s.owner.Removing? ==> Enabled(s, Examine)
    ensures o in s.objects && !s.objects[o].dying ==> Enabled(Do(s, Destroy(o)), Clear(o))
  {
  }

  // ----- without interference the scans are the operations of one thread -----

  function Scans(s: State, n: nat): State
    decreases n
  {
    if n == 0 || !s.owner.Allocating? then s else Scans(DoScan(s, s.owner.i), n - 1)
  }

  function Examines(s: State, n: nat): State
    decreases n
  {
    if n == 0 || !s.owner.Removing? then s else Examines(DoExamine(s, s.owner.i, s.owner.left), n - 1)
  }

  lemma {:induction false} AllocateAlone(s: State, i: nat)
    requires s.owner == Allocating(i) && i <= |s.blocks| && forall j | 0 <= j < i :: s.blocks[j].taken
    ensures var t := Scans(s, |s.blocks| - i + 1);
      t.blocks == Allocated(s.blocks, s.next) && t.owner == Constructing(t.blocks[|t.blocks| - 1].id)
    decreases |s.blocks| - i
  {
    var next := DoScan(s, i);
    assert Scans(s, |s.blocks| - i + 1) == Scans(next, |s.blocks| - i);
    if i < |s.blocks| && s.blocks[i].taken {
      AllocateAlone(next, i + 1);
    } else {
      FirstFreeIs(s.blocks, i);
    }
  }

  lemma TrimmedFrom(blocks: seq<Block>, i: nat, left: nat)
    requires i < |blocks| && left > 0
    ensures blocks[..i] + Trimmed(blocks[i..], left)
         == if blocks[i].taken then blocks[..i + 1] + Trimmed(blocks[i + 1..], left)
            else blocks[..i] + Trimmed(blocks[i + 1..], left - 1)
  {
    assert blocks[i..][0] == blocks[i] && blocks[i..][1..] == blocks[i + 1..];
    assert blocks[..i + 1] == blocks[..i] + [blocks[i]];
  }

  lemma TrimmedNothing(blocks: seq<Block>, i: nat, left: nat)
    requires i <= |blocks| && (i == |blocks| || left == 0)
    ensures blocks[..i] + Trimmed(blocks[i..], left) == blocks
  {
    assert blocks[..i] + blocks[i..] == blocks;
  }

  lemma {:induction false} RemoveAlone(s: State, i: nat, left: nat)
    requires s.owner == Removing(i, left) && i <= |s.blocks|
    ensures var t := Examines(s, |s.blocks| - i + 1);
      t.blocks == s.blocks[..i] + Trimmed(s.blocks[i..], left) && t.owner == Ready
    decreases |s.blocks| - i
  {
    hide Trimmed;
    var next, n := DoExamine(s, i, left), |s.blocks| - i;
    assert Examines(s, n + 1) == Examines(next, n);
    if i < |s.blocks| && left > 0 {
      TrimmedFrom(s.blocks, i, left);
      if s.blocks[i].taken {
        RemoveAlone(next, i + 1, left);
      } else {
        RemoveAlone(next, i, left - 1);
        Spliced(s.blocks, i);
      }
    } else {
      TrimmedNothing(s.blocks, i, left);
    }
  }

  /** Without interference an allocation from its beginning to the construction of the object is `Allocate`. */
  lemma MakeAlone(s: State, obj: Object, throws: bool)
    requires s.owner.Ready? && obj !in s.objects
    ensures var scanned := Scans(Do(s, BeginAllocate), |s.blocks| + 1);
      var after := Allocated(s.blocks, s.next);
      var id := after[|after| - 1].id;
      && scanned.owner == Constructing(id) && Enabled(scanned, Construct(obj, throws))
      && var t := Do(scanned, Construct(obj, throws));
        && t.blocks == (if throws then WithFlag(after, id, false) else after) && t.owner == Ready
        && t.objects == if throws then s.objects else s.objects[obj := Holder(id, false)]
  {
    hide Allocated, WithFlag;
    var begun := Do(s, BeginAllocate);
    AllocateAlone(begun, 0);
    ScansKeepObjects(begun, |s.blocks| + 1);
  }

  lemma {:induction false} ScansKeepObjects(s: State, n: nat)
    ensures Scans(s, n).objects == s.objects && Scans(s, n).freed == s.freed
    decreases n
  {
    if n > 0 && s.owner.Allocating? {
      ScansKeepObjects(DoScan(s, s.owner.i), n - 1);
    }
  }

  /** Without interference shrinking leaves just the blocks with objects. */
  lemma ShrinkAlone(s: State)
    requires s.owner.Ready?
    ensures var t := Examines(Do(s, BeginShrink), |s.blocks| + 1);
      t.blocks == Taken(s.blocks) && t.owner == Ready
  {
    hide Taken, Trimmed, Examines;
    RemoveAlone(Do(s, BeginShrink), 0, |s.blocks|);
    TrimmedAll(s.blocks, |s.blocks|);
    assert s.blocks[..0] + Trimmed(s.blocks[0..], |s.blocks|) == Trimmed(s.blocks, |s.blocks|);
  }

  /** Without interference resizing is `Resize`. */
  lemma ResizeAlone(s: State, count: nat)
    requires s.owner.Ready? && count > 0
    ensures var t := Examines(Do(s, BeginResize(count)), |s.blocks| + 1);
      t.blocks == Resized(s.blocks, count, s.next) && t.owner == Ready
  {
    hide Trimmed, Extra, FreshBlocks;
    var begun, extra := Do(s, BeginResize(count)), Extra(s.blocks, count);
    if extra < 0 {
      RemoveAlone(begun, 0, -extra);
      assert s.blocks[..0] + Trimmed(s.blocks[0..], -extra) == Trimmed(s.blocks, -extra);
    }
  }

  lemma Spliced(blocks: seq<Block>, i: nat)
    requires i < |blocks|
    ensures (blocks[..i] + blocks[i + 1..])[..i] == blocks[..i]
    ensures (blocks[..i] + blocks[i + 1..])[i..] == blocks[i + 1..]
  {
  }
}
