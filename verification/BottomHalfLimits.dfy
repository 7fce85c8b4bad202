/** What cannot happen to a bottom half in any run, and what can go wrong: a poll nested in a poll of the
    same context, and a context popped while its bottom halves are still scheduled. */
module BottomHalfLimits {
  import opened Common
  import opened IdLists
  import opened BottomHalves

  // ----- deletion

  /** The bottom half is gone, or deleted with this many runs. */
  predicate Dead(st: State, b: Id, runs: nat) {
    b < st.unused && (b in st.heap ==> st.heap[b].deleted && st.heap[b].runs == runs)
  }

  lemma StepKeepsDead(st: State, ev: Event, b: Id, runs: nat)
    requires Dead(st, b, runs)
    ensures Dead(Step(st, ev), b, runs)
  {
    hide After, Kept, StillScheduled, First;
  }

  /** A deleted bottom half is never run again, in any run. */
  lemma {:induction false} DeletedNeverRuns(st: State, evs: seq<Event>, b: Id)
    requires Inv(st) && b in st.heap && st.heap[b].deleted
    ensures var st' := Run(st, evs); b in st'.heap ==> st'.heap[b].deleted && st'.heap[b].runs == st.heap[b].runs
  {
    hide Inv, Run;
    assert b < st.unused by { InvMeans(st, b); }
    RunKeepsDead(st, evs, b, st.heap[b].runs);
  }

  lemma InvMeans(st: State, b: Id)
    requires Inv(st) && b in st.heap
    ensures b < st.unused
  {}

  lemma {:induction false} RunKeepsDead(st: State, evs: seq<Event>, b: Id, runs: nat)
    requires Dead(st, b, runs)
    ensures Dead(Run(st, evs), b, runs)
    decreases |evs|
  {
    hide Dead, Step;
    if evs != [] {
      StepKeepsDead(st, evs[0], b, runs);
      RunKeepsDead(Step(st, evs[0]), evs[1..], b, runs);
    }
  }

  // ----- a poll inside a poll of the same context

  lemma RunThree(st: State, a: Event, b: Event, c: Event)
    ensures Run(st, [a, b, c]) == Step(Step(Step(st, a), b), c)
  {
    hide Step, Run;
    assert [a, b, c] == [a] + ([b] + [c]);
    RunConcat(st, [a], [b] + [c]);
    RunConcat(Step(st, a), [b], [c]);
    RunOne(st, a);
    RunOne(Step(st, a), b);
    RunOne(Step(Step(st, a), b), c);
  }

  /** A poll has come to the end of its walk inside a callback of a poll of the same context, which goes
      to b next. */
  predicate NestedEnd(st: State, b: Id) {
    && |st.frames| >= 2 && st.contexts != []
    && var inner, outer := st.frames[|st.frames| - 1], st.frames[|st.frames| - 2];
    && inner.next == None && !inner.inCallback && !inner.popping
    && outer.next == Some(b) && outer.inCallback && (outer.popping ==> |st.contexts| > 1)
    && inner.depth == outer.depth == |st.contexts| - 1
    && b in st.contexts[outer.depth].list && b in st.heap
  }

  /** Whatever happened in the nested poll: when it and then the callback have returned, the outer poll
      follows a freed pointer exactly when b was deleted. */
  lemma NestedEndFollowsFreed(st: State, b: Id)
    requires NestedEnd(st, b) && !st.followedFreed
    ensures Run(st, [Advance, Return, Advance]).followedFreed <==> st.heap[b].deleted
  {
    hide After, Kept, Run;
    RunThree(st, Advance, Return, Advance);
    var n := |st.frames| - 1;
    var f := st.frames[n - 1];
    NestedReturns(st, b);
    var s1 := Step(st, Advance);
    ReturnThenVisit(s1, f, b);
  }

  lemma NestedReturns(st: State, b: Id)
    requires NestedEnd(st, b)
    ensures
      var st' := Step(st, Advance);
      && st'.frames == st.frames[..|st.frames| - 1] && st'.followedFreed == st.followedFreed
      && |st'.contexts| == |st.contexts| && (b in st'.heap <==> !st.heap[b].deleted)
  {
    hide Kept;
  }

  lemma ReturnThenVisit(st: State, f: Frame, b: Id)
    requires st.frames != [] && f == st.frames[|st.frames| - 1] && f.inCallback && f.next == Some(b)
    requires |st.contexts| == f.depth + 1 && (f.popping ==> |st.contexts| > 1) && !st.followedFreed
    ensures Step(Step(st, Return), Advance).followedFreed <==> b !in st.heap
  {
    hide After;
    var st' := Step(st, Return);
    assert st'.frames[|st'.frames| - 1] == f.(inCallback := false);
  }

  function Advances(n: nat): seq<Event> {
    if n == 0 then [] else [Advance] + Advances(n - 1)
  }

  /** A poll that finds nothing to run walks to the end of the list. */
  lemma {:induction false} QuietWalk(st: State)
    requires st.frames != [] && st.contexts != []
    requires var f := st.frames[|st.frames| - 1]; !f.inCallback && !f.popping && f.depth == |st.contexts| - 1
    requires var list := st.contexts[|st.contexts| - 1].list;
             NoDup(list) && (forall x :: x in list ==> x in st.heap) && Quiet(st.heap, list)
    requires var next := st.frames[|st.frames| - 1].next; next.Some? ==> next.value in st.contexts[|st.contexts| - 1].list
    ensures
      var f := st.frames[|st.frames| - 1];
      Run(st, Advances(|From(st.contexts[|st.contexts| - 1].list, f.next)|)) == SetTop(st, f.(next := None))
    decreases |From(st.contexts[|st.contexts| - 1].list, st.frames[|st.frames| - 1].next)|
  {
    hide NoDup, Run, From, After;
    var f := st.frames[|st.frames| - 1];
    var list := st.contexts[|st.contexts| - 1].list;
    if f.next == None {
      FromNone(list);
      RunNone(st);
      assert SetTop(st, f) == st;
    } else {
      var b := f.next.value;
      FromAfter(list, b);
      var st' := Step(st, Advance);
      assert st' == SetTop(st, f.(next := After(list, b)));
      QuietWalk(st');
      var n := |From(list, After(list, b))|;
      RunOne(st, Advance);
      RunConcat(st, [Advance], Advances(n));
      assert SetTop(st', f.(next := None)) == SetTop(st, f.(next := None));
    }
  }

  /** A complete poll, with nothing to run, inside a callback of a poll of the same context: the outer
      poll then follows a freed pointer exactly when the bottom half it saved is deleted.  The guard on
      Poll excludes such polls. */
  lemma NestedPollFollowsFreed(st: State, b: Id)
    requires Inv(st) && CanAct(st) && st.frames != [] && !Unpolled(st)
    requires st.frames[|st.frames| - 1].next == Some(b) && b in st.heap
    requires Quiet(st.heap, st.contexts[|st.contexts| - 1].list)
    ensures
      var walk := Advances(|st.contexts[|st.contexts| - 1].list|);
      Run(StartPoll(st, false), walk + [Advance, Return, Advance]).followedFreed <==> st.heap[b].deleted
  {
    hide Run, Quiet, NoDup, From, After, Idles, Counts, Passes;
    var list := st.contexts[|st.contexts| - 1].list;
    var outer := st.frames[|st.frames| - 1];
    assert FrameFits(st.contexts, outer);
    var s := StartPoll(st, false);
    var inner := s.frames[|s.frames| - 1];
    FromFirst(list);
    QuietWalk(s);
    var s' := SetTop(s, inner.(next := None));
    assert s'.frames[|s'.frames| - 1] == inner.(next := None);
    assert s'.frames[|s'.frames| - 2] == outer;
    NestedEndFollowsFreed(s', b);
    RunConcat(s, Advances(|list|), [Advance, Return, Advance]);
  }

  const START := State(map[], 0, [Context([], false)], [], false, false, [])

  /** The state in which the callback of the first of two bottom halves has deleted the second. */
  const DELETED_NEXT := State(
    map[0 := Bh(false, false, true, 0, 0), 1 := Bh(false, false, false, 1, 1)], 2,
    [Context([1, 0], false)], [Frame(0, Some(0), true, true, false)], false, false, [])

  lemma TwoCreated()
    ensures Run(START, [Create, Create]) ==
            State(map[0 := Bh(false, false, false, 0, 0), 1 := Bh(false, false, false, 0, 0)], 2,
                  [Context([1, 0], false)], [], false, false, [])
  {
    hide Run;
    var s1 := State(map[0 := Bh(false, false, false, 0, 0)], 1, [Context([0], false)], [], false, false, []);
    var none: seq<Id>, one: seq<Id> := [], [0];
    assert [0] + none == one && [1] + one == [1, 0];
    assert Step(START, Create) == s1;
    assert [Create, Create] == [Create] + [Create];
    RunConcat(START, [Create], [Create]);
    RunOne(START, Create);
    RunOne(s1, Create);
  }

  lemma FirstRuns(st: State)
    requires st == State(map[0 := Bh(false, false, false, 0, 0), 1 := Bh(false, false, false, 0, 0)], 2,
                         [Context([1, 0], false)], [], false, false, [])
    ensures Run(st, [Schedule(1), Poll, Advance]) ==
            State(map[0 := Bh(false, false, false, 0, 0), 1 := Bh(false, false, false, 1, 1)], 2,
                  [Context([1, 0], false)], [Frame(0, Some(0), true, true, false)], false, false, [])
  {
    RunThree(st, Schedule(1), Poll, Advance);
    var s1 := st.(heap := st.heap[1 := Bh(true, false, false, 1, 0)]);
    assert Step(st, Schedule(1)) == s1;
    var s2 := s1.(frames := [Frame(0, Some(1), false, false, false)]);
    assert Step(s1, Poll) == s2;
    var rest: seq<Id> := [1, 0][1..];
    assert rest == [0];
    assert After([1, 0], 1) == Some(0);
    assert Step(s2, Advance).heap == map[0 := Bh(false, false, false, 0, 0), 1 := Bh(false, false, false, 1, 1)];
  }

  /** Such a poll from the start of the main loop. */
  lemma NestedPollRun()
    ensures
      var before := [Create, Create] + ([Schedule(1), Poll, Advance] + [Delete(0)]);
      var st := Run(START, before);
      && Inv(st) && CanAct(st) && !Unpolled(st)
      && Run(StartPoll(st, false), Advances(2) + [Advance, Return, Advance]).followedFreed
  {
    hide Run, Inv, Advances;
    var tail := [Schedule(1), Poll, Advance];
    TwoCreated();
    var s1 := Run(START, [Create, Create]);
    FirstRuns(s1);
    var s2 := Run(s1, tail);
    RunConcat(START, [Create, Create], tail + [Delete(0)]);
    RunConcat(s1, tail, [Delete(0)]);
    RunOne(s2, Delete(0));
    assert Step(s2, Delete(0)) == DELETED_NEXT;
    InitialInv(START);
    RunKeepsInv(START, [Create, Create] + (tail + [Delete(0)]));
    assert Quiet(DELETED_NEXT.heap, DELETED_NEXT.contexts[0].list);
    NestedPollFollowsFreed(DELETED_NEXT, 0);
  }

  // ----- what a popped context loses

  lemma {:induction false} StillScheduledIff(heap: map<Id, Bh>, list: seq<Id>, everIdle: bool, b: Id, e: bool)
    ensures (b, e) in StillScheduled(heap, list, everIdle) <==> e == everIdle && b in list && b in heap && Runnable(heap[b])
  {
    if list != [] {
      StillScheduledIff(heap, list[1..], everIdle, b, e);
    }
  }

  lemma SweepKeepsRunnable(heap: map<Id, Bh>, list: seq<Id>, b: Id)
    ensures b in Kept(heap, list) && b in Freed(heap, list) && Runnable(Freed(heap, list)[b]) <==> b in list && b in heap && Runnable(heap[b])
  {}

  /** When the last pass of async_context_pop ran at most idle bottom halves, the context is popped and
      abandons exactly the bottom halves scheduled by then; there are none unless idle ones were about. */
  lemma PopAbandonsScheduled(st: State, b: Id)
    requires Inv(st) && Enabled(st, Advance)
    requires var f := st.frames[|st.frames| - 1]; f.next == None && f.popping && !f.ret
    ensures
      var c := st.contexts[|st.contexts| - 1];
      var st' := Step(st, Advance);
      && st.abandoned <= st'.abandoned && |st'.contexts| == |st.contexts| - 1
      && var lost := st'.abandoned[|st.abandoned|..];
      && ((b, true) in lost <==> b in c.list && b in st.heap && Runnable(st.heap[b]))
      && (b, false) !in lost && (b in c.list && b in st.heap && Runnable(st.heap[b]) ==> c.everIdle)
  {
    hide Inv, Kept, Freed, Runnable, Before, StillScheduled;
    var c := st.contexts[|st.contexts| - 1];
    AbandonedByPop(st);
    var heap', list' := Freed(st.heap, c.list), Kept(st.heap, c.list);
    SweepKeepsRunnable(st.heap, c.list, b);
    StillScheduledIff(heap', list', c.everIdle, b, true);
    StillScheduledIff(heap', list', c.everIdle, b, false);
    if b in c.list && b in st.heap && Runnable(st.heap[b]) {
      assert c.everIdle by { Innermost(st); BeforeNone(c.list); NotQuiet(st.heap, c.list, b); }
    }
  }

  lemma NotQuiet(heap: map<Id, Bh>, list: seq<Id>, b: Id)
    requires b in list && b in heap && Runnable(heap[b])
    ensures !Quiet(heap, list)
  {}

  lemma AbandonedByPop(st: State)
    requires Enabled(st, Advance)
    requires var f := st.frames[|st.frames| - 1]; f.next == None && f.popping && !f.ret
    ensures
      var c := st.contexts[|st.contexts| - 1];
      var st' := Step(st, Advance);
      && |st'.contexts| == |st.contexts| - 1
      && st'.abandoned == st.abandoned + StillScheduled(Freed(st.heap, c.list), Kept(st.heap, c.list), c.everIdle)
  {
    hide Kept, Freed, StillScheduled;
  }

  const PUSHED := [Context([], false), Context([0], true)]

  lemma OneCreated(st: State)
    requires st == START.(contexts := [Context([], false), Context([], false)])
    ensures Step(st, Create) ==
            State(map[0 := Bh(false, false, false, 0, 0)], 1, [Context([], false), Context([0], false)], [], false, false, [])
  {
    var none: seq<Id>, one: seq<Id> := [], [0];
    assert [0] + none == one;
  }

  lemma OneIdle(st: State)
    requires st == State(map[0 := Bh(false, false, false, 0, 0)], 1, [Context([], false), Context([0], false)], [], false, false, [])
    ensures Step(st, ScheduleIdle(0)) == State(map[0 := Bh(true, true, false, 1, 0)], 1, PUSHED, [], false, false, [])
  {
    assert MarkIdle(st.contexts, 0) == PUSHED;
    assert st.heap[0 := Bh(true, true, false, 1, 0)] == map[0 := Bh(true, true, false, 1, 0)];
  }

  lemma IdlePopped()
    ensures Run(START, [Push, Create, ScheduleIdle(0)]) == State(map[0 := Bh(true, true, false, 1, 0)], 1, PUSHED, [], false, false, [])
  {
    hide Run;
    RunThree(START, Push, Create, ScheduleIdle(0));
    var s1 := START.(contexts := [Context([], false), Context([], false)]);
    assert Step(START, Push) == s1;
    OneCreated(s1);
    OneIdle(Step(s1, Create));
  }

  lemma PopBegins(st: State)
    requires st == State(map[0 := Bh(true, true, false, 1, 0)], 1, PUSHED, [], false, false, [])
    ensures Step(st, Pop) == st.(frames := [Frame(1, Some(0), false, false, true)])
  {}

  lemma IdleIsRun(st: State)
    requires st == State(map[0 := Bh(true, true, false, 1, 0)], 1, PUSHED, [Frame(1, Some(0), false, false, true)], false, false, [])
    ensures Step(st, Advance) == st.(heap := map[0 := Bh(false, false, false, 1, 1)], frames := [Frame(1, None, false, true, true)])
  {
    assert After([0], 0) == None;
    assert st.heap[0 := Bh(false, false, false, 1, 1)] == map[0 := Bh(false, false, false, 1, 1)];
  }

  lemma IdleAgain(st: State)
    requires st == State(map[0 := Bh(false, false, false, 1, 1)], 1, PUSHED, [Frame(1, None, false, true, true)], false, false, [])
    ensures Step(st, Schedule(0)) == st.(heap := map[0 := Bh(true, false, false, 2, 1)])
  {
    assert st.heap[0 := Bh(true, false, false, 2, 1)] == map[0 := Bh(true, false, false, 2, 1)];
  }

  lemma IdleRuns(st: State)
    requires st == State(map[0 := Bh(true, true, false, 1, 0)], 1, PUSHED, [], false, false, [])
    ensures Run(st, [Pop, Advance, Schedule(0)]) ==
            State(map[0 := Bh(true, false, false, 2, 1)], 1, PUSHED, [Frame(1, None, false, true, true)], false, false, [])
  {
    hide Run, Step;
    RunThree(st, Pop, Advance, Schedule(0));
    PopBegins(st);
    var s1 := Step(st, Pop);
    IdleIsRun(s1);
    IdleAgain(Step(s1, Advance));
  }

  /** An idle bottom half that schedules itself again, not idle, while its context is being popped is
      lost with the context. */
  lemma PopLosesARun()
    ensures
      var evs := [Push, Create, ScheduleIdle(0)] + ([Pop, Advance, Schedule(0)] + ([Return] + [Advance]));
      Run(START, evs).abandoned == [(0, true)] && |Run(START, evs).contexts| == 1
  {
    hide Run, Kept, Freed, StillScheduled;
    IdlePopped();
    var s1 := Run(START, [Push, Create, ScheduleIdle(0)]);
    IdleRuns(s1);
    var s2 := Run(s1, [Pop, Advance, Schedule(0)]);
    RunConcat(START, [Push, Create, ScheduleIdle(0)], [Pop, Advance, Schedule(0)] + ([Return] + [Advance]));
    RunConcat(s1, [Pop, Advance, Schedule(0)], [Return] + [Advance]);
    RunConcat(s2, [Return], [Advance]);
    RunOne(s2, Return);
    var s3 := s2.(frames := [Frame(1, None, false, false, true)]);
    assert Step(s2, Return) == s3;
    RunOne(s3, Advance);
    AbandonedByPop(s3);
    OneLeft();
  }

  lemma OneLeft()
    ensures
      var heap := map[0 := Bh(true, false, false, 2, 1)];
      StillScheduled(Freed(heap, [0]), Kept(heap, [0]), true) == [(0, true)]
  {
    var heap := map[0 := Bh(true, false, false, 2, 1)];
    assert Kept(heap, [0]) == [0] + Kept(heap, []);
    assert Freed(heap, [0]) == heap;
    assert StillScheduled(heap, [0], true) == [(0, true)] + StillScheduled(heap, [], true);
  }
}
