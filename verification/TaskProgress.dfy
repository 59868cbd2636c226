/** What tasks do while their owner keeps the handle, and that a body goes on only where the flags have been asked. */
module TaskProgress {
  import opened Text
  import opened Tasks

  predicate AtCheck(s: State) {
    s.control.Start? || s.control.Resume?
  }

  lemma RunLength(states: seq<State>, steps: seq<Step>)
    requires IsRun(states, steps)
    ensures |states| == |steps| + 1
  {
  }

  lemma RunFacts(states: seq<State>, steps: seq<Step>, k: nat)
    requires IsRun(states, steps) && k < |steps|
    ensures Flagged(states[k]) && Enabled(states[k], steps[k]) && states[k + 1] == Do(states[k], steps[k])
    ensures states[k].control != Crash && states[k + 1].control != Crash
  {
    hide Do, Enabled, Shaped, Covered, Conserved;
    RunIsSafe(states, steps, k);
    RunIsSafe(states, steps, k + 1);
    var chain, cur :| Shaped(states[k], chain, cur) && Covered(states[k], chain);
    NeverCrash(states[k], chain, cur);
  }

  /**
   Where a task starts and wherever an await ends, the body is entered just if the owner still has the handle;
   otherwise it is unwound.
   */
  lemma ChecksDecide(states: seq<State>, steps: seq<Step>, k: nat)
    requires IsRun(states, steps) && k < |steps| && steps[k].Advance? && AtCheck(states[k])
    ensures var s, t := states[k], states[k + 1];
      if s.owner.Some? then t.control == User(s.control.frame) && t.segments == s.segments + 1
      else t.control == Final(s.control.frame) && t.segments == s.segments
  {
    hide Flagged;
    RunFacts(states, steps, k);
    CheckDecides(states[k]);
  }

  lemma CheckDecides(s: State)
    requires Flagged(s) && AtCheck(s) && DoAdvance(s).control != Crash
    ensures var t := DoAdvance(s);
      if s.owner.Some? then t.control == User(s.control.frame) && t.segments == s.segments + 1
      else t.control == Final(s.control.frame) && t.segments == s.segments
  {
  }

  /** There is no other way into a body: every await leaves it, and `segments` counts how often it is entered. */
  lemma EnteredByCheck(states: seq<State>, steps: seq<Step>, k: nat)
    requires IsRun(states, steps) && k < |steps|
    ensures var s, t := states[k], states[k + 1];
      && (t.control.User? ==>
            (t.control == s.control && steps[k].DropOwner?)
            || (AtCheck(s) && steps[k].Advance? && t.control.frame == s.control.frame && t.segments == s.segments + 1))
      && (t.segments != s.segments ==> t.control.User? && t.segments == s.segments + 1)
  {
    hide Flagged;
    RunFacts(states, steps, k);
    StepEnters(states[k], steps[k]);
  }

  lemma StepEnters(s: State, step: Step)
    requires Enabled(s, step)
    ensures var t := Do(s, step);
      && (t.control.User? ==>
            (t.control == s.control && step.DropOwner?)
            || (AtCheck(s) && step.Advance? && t.control.frame == s.control.frame && t.segments == s.segments + 1))
      && (t.segments != s.segments ==> (t.control.User? && t.segments == s.segments + 1) || t.control == Crash)
  {
  }

  /** Running a task enters its body, and so does the way back from an await of something that is ready. */
  lemma RunEnters(states: seq<State>, steps: seq<Step>, k: nat)
    requires IsRun(states, steps) && k < |steps|
    ensures steps[k].RunRoot? ==>
      DoAdvance(states[k + 1]).control == User(ROOT) && DoAdvance(states[k + 1]).segments == states[k].segments + 1
    ensures steps[k].AwaitReady? && states[k].owner.Some? ==>
      DoAdvance(states[k + 1]).control == states[k].control && DoAdvance(states[k + 1]).segments == states[k].segments + 1
  {
    hide *;
    RunLength(states, steps);
    RunFacts(states, steps, k);
    var chain, cur := ShapeOf(states, steps, k);
    BodyEnds(states[k], chain, cur);
    StepThenEnters(states[k], steps[k]);
  }

  lemma BodyEnds(s: State, chain: seq<Id>, cur: nat)
    requires Shaped(s, chain, cur)
    ensures s.control.User? ==> s.control.frame in s.frames && s.frames[s.control.frame].inner.None?
  {
    hide Waits, Runs, Flagged;
    if s.control.User? {
      Ends(s, chain);
    }
  }

  lemma StepThenEnters(s: State, step: Step)
    requires Flagged(s) && Enabled(s, step)
    requires s.control.User? ==> s.control.frame in s.frames && s.frames[s.control.frame].inner.None?
    ensures step.RunRoot? ==>
      DoAdvance(Do(s, step)).control == User(ROOT) && DoAdvance(Do(s, step)).segments == s.segments + 1
    ensures step.AwaitReady? && s.owner.Some? ==>
      DoAdvance(Do(s, step)).control == s.control && DoAdvance(Do(s, step)).segments == s.segments + 1
  {
  }

  // ----- awaiting a task -----

  /** Awaiting a task enters the body of the new one. */
  lemma AwaitEnters(states: seq<State>, steps: seq<Step>, k: nat)
    requires IsRun(states, steps) && k < |steps| && steps[k].AwaitTask? && states[k].owner.Some?
    ensures var s, t := states[k], DoAdvance(states[k + 1]);
      && s.next !in s.frames && t.control == User(s.next) && t.segments == s.segments + 1
      && s.control.frame in t.frames && t.frames[s.control.frame].inner == Some(s.next)
  {
    RunFacts(states, steps, k);
    Begins(states[k]);
  }

  lemma Begins(s: State)
    requires Flagged(s) && Enabled(s, AwaitTask) && s.owner.Some?
    ensures var t := DoAdvance(Do(s, AwaitTask));
      && s.next !in s.frames && t.control == User(s.next) && t.segments == s.segments + 1
      && s.control.frame in t.frames && t.frames[s.control.frame].inner == Some(s.next)
  {
  }

  /** The task `p` awaits the task `id`, which is about to end, and is inside its `Run` or waits for it. */
  predicate Awaits(s: State, p: Id, id: Id) {
    && s.control == Final(id) && p != id && p in s.frames && id in s.frames && s.frames[p].inner == Some(id)
    && if s.runs != [] then s.frames[id].parentHandle.None? && s.runs[|s.runs| - 1] == p
       else s.frames[id].parentHandle == Some(p) && s.frames[p].phase == Suspended
  }

  lemma CallerOf(s: State, chain: seq<Id>, cur: nat) returns (p: Id)
    requires Shaped(s, chain, cur) && s.control.Final? && s.control.frame != ROOT
    ensures Awaits(s, p, s.control.frame) && p != s.control.frame
  {
    hide Linked, Waits, Runs, Flagged;
    Ends(s, chain);
    Apart(s, chain);
    p := chain[cur - 1];
    OneWaits(s, chain, cur - 1);
    if s.runs != [] {
      Joins(s, chain, cur - |s.runs|, cur - 1, cur);
    } else {
      Joins(s, chain, 0, cur - 1, cur);
    }
  }

  /** The end of an awaited task hands control to the body that awaits it; its frame is destroyed. */
  predicate HandsBack(s: State, t: State, p: Id, id: Id) {
    && t.control == User(p) && t.segments == s.segments + 1
    && t.frames.Keys == s.frames.Keys - {id} && t.destroyed == s.destroyed + multiset{id}
    && p in t.frames && t.frames[p].inner.None?
  }

  lemma ResumesCaller(s: State, p: Id, id: Id)
    requires Flagged(s) && s.owner.Some? && s.control == Resume(p) && p != id && id != ROOT
    requires p in s.frames && id in s.frames && s.frames[p].inner == Some(id) && s.frames[id].phase == Done
    ensures HandsBack(s, DoAdvance(s), p, id)
  {
  }

  lemma ReachesCaller(s: State, p: Id, id: Id) returns (n: nat)
    requires Flagged(s) && s.owner.Some? && id != ROOT && Awaits(s, p, id)
    ensures var t := Advances(s, n);
      && t.control == Resume(p) && t.frames.Keys == s.frames.Keys && t.destroyed == s.destroyed
      && t.segments == s.segments && t.owner == s.owner && t.next == s.next
      && p in t.frames && id in t.frames && t.frames[p].inner == Some(id) && t.frames[id].phase == Done && Flagged(t)
  {
    hide IsCanceled, Readable;
    var t := DoAdvance(s);
    if s.runs == [] {
      n := 1;
      assert Advances(t, 0) == t;
      assert Advances(s, 1) == Advances(t, 0);
    } else {
      n := 2;
      var u := DoAdvance(t);
      assert Advances(u, 0) == u;
      assert Advances(t, 1) == Advances(u, 0);
      assert Advances(s, 2) == Advances(t, 1);
    }
  }

  lemma {:induction false} AdvancesThen(s: State, n: nat)
    ensures Advances(s, n + 1) == DoAdvance(Advances(s, n))
    decreases n
  {
    hide DoAdvance;
    if n > 0 {
      AdvancesThen(DoAdvance(s), n - 1);
    }
  }

  lemma AwaitReturns(states: seq<State>, steps: seq<Step>, k: nat) returns (p: Id, n: nat)
    requires IsRun(states, steps) && k < |steps| && steps[k].Finish? && states[k].owner.Some?
    requires states[k].control.frame != ROOT
    ensures var s, id := states[k], states[k].control.frame;
      p in s.frames && s.frames[p].inner == Some(id) && HandsBack(s, Advances(states[k + 1], n), p, id)
  {
    hide *;
    RunLength(states, steps);
    var s, t := states[k], states[k + 1];
    FinishIs(states, steps, k);
    var chain, cur := ShapeOf(states, steps, k + 1);
    p := CallerOf(t, chain, cur);
    ShapedIsFlagged(t, chain, cur);
    n := ReachesCaller(t, p, s.control.frame);
    ResumesCaller(Advances(t, n), p, s.control.frame);
    AdvancesThen(t, n);
    n := n + 1;
    HandsBackFrom(s, t, Advances(t, n - 1), Advances(t, n), p, s.control.frame);
  }

  lemma FinishIs(states: seq<State>, steps: seq<Step>, k: nat)
    requires IsRun(states, steps) && k < |steps| && steps[k].Finish?
    ensures states[k].control.User? && states[k + 1] == states[k].(control := Final(states[k].control.frame))
  {
  }

  lemma ShapeOf(states: seq<State>, steps: seq<Step>, k: nat) returns (chain: seq<Id>, cur: nat)
    requires IsRun(states, steps) && k < |states|
    ensures Shaped(states[k], chain, cur) && Covered(states[k], chain)
  {
    hide Shaped, Covered, Conserved, IsRun;
    RunIsSafe(states, steps, k);
    chain, cur :| Shaped(states[k], chain, cur) && Covered(states[k], chain);
  }

  lemma ShapedIsFlagged(s: State, chain: seq<Id>, cur: nat)
    requires Shaped(s, chain, cur)
    ensures Flagged(s)
  {
  }

  lemma HandsBackFrom(s: State, t: State, u: State, v: State, p: Id, id: Id)
    requires t == s.(control := Final(id)) && Awaits(t, p, id) && HandsBack(u, v, p, id)
    requires u.frames.Keys == t.frames.Keys && u.destroyed == t.destroyed && u.segments == t.segments
    ensures p in s.frames && s.frames[p].inner == Some(id) && HandsBack(s, v, p, id)
  {
  }

  // ----- awaiting something outside -----

  /** The resumption that arrives enters the body that awaited it. */
  lemma FireEnters(states: seq<State>, steps: seq<Step>, k: nat)
    requires IsRun(states, steps) && k < |steps| && steps[k].Fire? && states[k].owner.Some?
    ensures var s, t := states[k], DoAdvance(states[k + 1]);
      t.control == User(s.pending.value) && t.segments == s.segments + 1 && t.frames.Keys == s.frames.Keys
  {
    hide *;
    RunLength(states, steps);
    var chain, cur := ShapeOf(states, steps, k);
    FireIs(states, steps, k);
    Fires(states[k], chain, cur);
    FiredInner(states[k], chain, cur);
    FiresOn(states[k], states[k + 1]);
  }

  lemma FireIs(states: seq<State>, steps: seq<Step>, k: nat)
    requires IsRun(states, steps) && k < |steps| && steps[k].Fire?
    ensures Enabled(states[k], Fire) && states[k + 1] == Do(states[k], Fire)
  {
  }

  lemma FiredInner(s: State, chain: seq<Id>, cur: nat)
    requires Shaped(s, chain, cur) && Enabled(s, Fire)
    ensures Flagged(s) && s.pending.value in s.frames && s.frames[s.pending.value].inner.None?
  {
    hide Waits, Runs;
    Ends(s, chain);
  }

  lemma FiresOn(s: State, t: State)
    requires Flagged(s) && s.owner.Some? && s.pending.Some? && s.pending.value in s.frames
    requires Enabled(s, Fire) && t == Do(s, Fire) && t.control.Resume? && s.frames[s.pending.value].inner.None?
    ensures var u := DoAdvance(t);
      u.control == User(s.pending.value) && u.segments == s.segments + 1 && u.frames.Keys == s.frames.Keys
  {
  }

  /** While it waits every caller suspends, up to the root, and no body is entered. */
  lemma AwaitParks(states: seq<State>, steps: seq<Step>, k: nat) returns (n: nat)
    requires IsRun(states, steps) && k < |steps| && steps[k].AwaitOutside?
    ensures var s, t := states[k], Advances(states[k + 1], n);
      && t.control.Idle? && t.pending == Some(s.control.frame) && t.segments == s.segments
      && t.frames.Keys == s.frames.Keys && t.owner == s.owner
      && forall id | id in t.frames :: t.frames[id].phase == Suspended
  {
    hide *;
    RunLength(states, steps);
    var s, t := states[k], states[k + 1];
    var chain, cur := ShapeOf(states, steps, k);
    OutsideIs(states, steps, k);
    AwaitsOutside(s, chain, cur);
    CoveredByKeys(s, t, chain);
    OutsideParks(s, chain, cur);
    n := Parks(t, chain, if cur == 0 then 0 else cur - 1);
  }

  lemma OutsideIs(states: seq<State>, steps: seq<Step>, k: nat)
    requires IsRun(states, steps) && k < |steps| && steps[k].AwaitOutside?
    ensures var s, t := states[k], states[k + 1];
      && Enabled(s, AwaitOutside) && t == Do(s, AwaitOutside)
      && t.frames.Keys == s.frames.Keys && t.owner == s.owner && t.segments == s.segments
      && t.pending == Some(s.control.frame)
  {
  }

  lemma OutsideParks(s: State, chain: seq<Id>, cur: nat)
    requires Shaped(s, chain, cur) && Enabled(s, AwaitOutside)
    ensures Parking(Do(s, AwaitOutside))
  {
    hide Waits, Runs, Flagged;
  }

  /** On the way back from an await: at the event loop, or behind a `Run` of a task that is not done. */
  predicate Parking(s: State) {
    s.pending.Some? && (s.control.Idle? || s.control.AfterRun?)
  }

  lemma {:induction false} Parks(s: State, chain: seq<Id>, cur: nat) returns (n: nat)
    requires Shaped(s, chain, cur) && Covered(s, chain) && Parking(s)
    ensures var t := Advances(s, n);
      && t.control.Idle? && t.pending == s.pending && t.segments == s.segments
      && t.frames.Keys == s.frames.Keys && t.owner == s.owner
      && forall id | id in t.frames :: t.frames[id].phase == Suspended
    decreases s.control.AfterRun?, cur
  {
    hide *;
    ParkingIs(s);
    if s.control.Idle? {
      n := 0;
      AdvancesIdle(s, 0);
      AllSuspended(s, chain, cur);
    } else {
      var t := DoAdvance(s);
      ParksOne(s, chain, cur);
      Suspends(s, chain, cur);
      CoveredByKeys(s, t, chain);
      var m := Parks(t, chain, if cur == 0 then 0 else cur - 1);
      n := m + 1;
      AdvancesMore(s, m);
    }
  }

  lemma ParkingIs(s: State)
    ensures Parking(s) <==> s.pending.Some? && (s.control.Idle? || s.control.AfterRun?)
  {
  }

  lemma ParksOne(s: State, chain: seq<Id>, cur: nat)
    requires Shaped(s, chain, cur) && s.pending.Some? && s.control.AfterRun?
    ensures Linked(s, chain) && !InnerDone(s, chain, cur)
    ensures var t := DoAdvance(s);
      && Parking(t) && t.pending == s.pending && t.segments == s.segments && t.frames.Keys == s.frames.Keys
      && t.owner == s.owner && (cur == 0 ==> t.control.Idle?)
  {
    hide Waits, Runs, Flagged, Linked;
    OneWaits(s, chain, cur);
    Ends(s, chain);
    InnerNotDone(s, chain, cur);
  }

  lemma AllSuspended(s: State, chain: seq<Id>, cur: nat)
    requires Shaped(s, chain, cur) && Covered(s, chain) && s.control.Idle? && s.pending.Some?
    ensures forall id | id in s.frames :: s.frames[id].phase == Suspended
  {
    forall id | id in s.frames
      ensures s.frames[id].phase == Suspended
    {
      var k :| 0 <= k < |chain| && chain[k] == id;
    }
  }

  // ----- the end of the root -----

  /** A root task that ends stays, done, with the owner's handle, and its frame is destroyed with that. */
  lemma RootEnds(states: seq<State>, steps: seq<Step>, k: nat)
    requires IsRun(states, steps) && k < |steps| && steps[k].Finish? && states[k].owner.Some?
    requires states[k].control.frame == ROOT
    ensures var t := DoAdvance(states[k + 1]);
      && t.control.Idle? && t.frames.Keys == {ROOT} && t.frames[ROOT].phase == Done && Enabled(t, DropOwner)
      && Do(t, DropOwner).frames == map[] && Do(t, DropOwner).destroyed == states[k].destroyed + multiset{ROOT}
  {
    hide *;
    RunLength(states, steps);
    var chain, cur := ShapeOf(states, steps, k + 1);
    FinishIs(states, steps, k);
    RootIsAlone(states[k + 1], chain, cur);
    RootDone(states[k + 1]);
  }

  lemma RootIsAlone(s: State, chain: seq<Id>, cur: nat)
    requires Shaped(s, chain, cur) && Covered(s, chain) && s.control == Final(ROOT)
    ensures Flagged(s) && s.frames.Keys == {ROOT} && s.runs == []
  {
    hide Waits, Runs, Flagged, Covered;
    Ends(s, chain);
    Apart(s, chain);
    RootAlone(s, chain);
  }

  lemma RootDone(s: State)
    requires Flagged(s) && s.owner.Some? && s.control == Final(ROOT) && s.frames.Keys == {ROOT} && s.runs == []
    ensures var t := DoAdvance(s);
      && t.control.Idle? && t.frames.Keys == {ROOT} && t.frames[ROOT].phase == Done && Enabled(t, DropOwner)
      && Do(t, DropOwner).frames == map[] && Do(t, DropOwner).destroyed == s.destroyed + multiset{ROOT}
  {
  }

  // ----- nothing gets stuck -----

  /** What the body may do, whenever it runs; the owner may drop its handle meanwhile, or in the event loop. */
  lemma BodyIsFree(states: seq<State>, steps: seq<Step>, k: nat, step: Step)
    requires IsRun(states, steps) && k < |states|
    ensures states[k].control.User? && (step.AwaitOutside? || step.AwaitReady? || step.AwaitTask? || step.Finish?) ==>
      Enabled(states[k], step)
    ensures states[k].owner.Some? && (states[k].control.User? || states[k].control.Idle?) ==> Enabled(states[k], DropOwner)
  {
    hide *;
    var chain, cur := ShapeOf(states, steps, k);
    BodyShape(states[k], chain, cur);
    BodyEnabled(states[k], step);
  }

  lemma BodyShape(s: State, chain: seq<Id>, cur: nat)
    requires Shaped(s, chain, cur)
    ensures s.control.User? ==> s.control.frame in s.frames
  {
    hide Waits, Runs, Flagged;
    if s.control.User? {
      Ends(s, chain);
    }
  }

  lemma BodyEnabled(s: State, step: Step)
    requires s.control.User? ==> s.control.frame in s.frames
    ensures s.control.User? && (step.AwaitOutside? || step.AwaitReady? || step.AwaitTask? || step.Finish?) ==>
      Enabled(s, step)
    ensures s.owner.Some? && (s.control.User? || s.control.Idle?) ==> Enabled(s, DropOwner)
  {
  }

  /** In the event loop without the owner, and without a resumption that is pending. */
  predicate Over(s: State) {
    s.control.Idle? && s.owner.None? && s.pending.None?
  }

  /** Something can always happen until the owner has dropped its handle and no resumption is pending. */
  lemma NeverStuck(states: seq<State>, steps: seq<Step>, k: nat)
    requires IsRun(states, steps) && k < |states|
    ensures (exists step :: Enabled(states[k], step)) <==> !Over(states[k])
  {
    hide *;
    var s := states[k];
    var chain, cur := ShapeOf(states, steps, k);
    BodyShape(s, chain, cur);
    NeverCrash(s, chain, cur);
    StuckIs(s);
  }

  lemma StuckIs(s: State)
    requires s.control != Crash && (s.control.User? ==> s.control.frame in s.frames)
    ensures (exists step :: Enabled(s, step)) <==> !Over(s)
  {
    if !Over(s) {
      var step := if s.control.User? then Finish else if !s.control.Idle? then Advance
                  else if s.owner.Some? then DropOwner else Fire;
      assert Enabled(s, step);
    }
  }
}
