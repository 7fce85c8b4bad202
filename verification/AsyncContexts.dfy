/** async.c in place: the stack of contexts, their lists and the flags of bottom halves, changed by the
    running code and by the polls it is called from. */
module AsyncContexts {
  import opened Common
  import opened BottomHalves
  import opened IdLists
  import opened AsyncPolls
  import PollVisits

  class Async {
    var heap: map<Id, Bh>
    var unused: Id
    var contexts: seq<Context>
    var frames: seq<Frame>
    var todo: seq<seq<Action>>
    ghost var abandoned: seq<(Id, bool)>
    ghost var done: seq<Event>

    ghost function Abstract(): State
      reads this
    {
      State(heap, unused, contexts, frames, false, false, abandoned)
    }

    ghost function Snapshot(): World
      reads this
    {
      World(Abstract(), todo, done)
    }

    constructor (callbacks: seq<seq<Action>>)
      ensures Initial(Abstract()) && Inv(Abstract()) && todo == callbacks
    {
      heap, unused, contexts, frames, abandoned := map[], 0, [Context([], false)], [], [];
      todo, done := callbacks, [];
    }

    /** async_context_push */
    method PushContext()
      requires Inv(Abstract()) && Enabled(Abstract(), Push)
      modifies this`done, this`contexts
      ensures Inv(Abstract()) && Snapshot() == Apply(old(Snapshot()), Push)
    {
      hide Inv;
      StepKeepsInv(Abstract(), Push);
      done := done + [Push];
      contexts := contexts + [Context([], false)];
    }

    /** qemu_bh_new */
    method NewBh() returns (b: Id)
      requires Inv(Abstract()) && Enabled(Abstract(), Create)
      modifies this`done, this`heap, this`unused, this`contexts
      ensures Inv(Abstract()) && Snapshot() == Apply(old(Snapshot()), Create) && b in heap && b !in old(heap)
    {
      hide Inv;
      StepKeepsInv(Abstract(), Create);
      done := done + [Create];
      assert unused !in heap by { Fresh(Abstract()); }
      b := unused;
      var top := |contexts| - 1;
      var c := contexts[top];
      heap := heap[b := Bh(false, false, false, 0, 0)];
      unused := unused + 1;
      contexts := contexts[top := c.(list := [b] + c.list)];
    }

    /** qemu_bh_schedule */
    method ScheduleBh(b: Id)
      requires Inv(Abstract()) && Enabled(Abstract(), Schedule(b))
      modifies this`done, this`heap
      ensures Inv(Abstract()) && Snapshot() == Apply(old(Snapshot()), Schedule(b))
    {
      hide Inv;
      StepKeepsInv(Abstract(), Schedule(b));
      done := done + [Schedule(b)];
      var h := heap[b];
      if h.scheduled {
        assert heap == heap[b := h];
        return;
      }
      heap := heap[b := h.(scheduled := true, idle := false, schedulings := h.schedulings + 1)];
    }

    /** qemu_bh_schedule_idle */
    method ScheduleBhIdle(b: Id)
      requires Inv(Abstract()) && Enabled(Abstract(), ScheduleIdle(b))
      modifies this`done, this`heap, this`contexts
      ensures Inv(Abstract()) && Snapshot() == Apply(old(Snapshot()), ScheduleIdle(b))
    {
      hide Inv;
      StepKeepsInv(Abstract(), ScheduleIdle(b));
      done := done + [ScheduleIdle(b)];
      var h := heap[b];
      contexts := MarkIdle(contexts, b);
      if h.scheduled {
        assert heap == heap[b := h];
        return;
      }
      heap := heap[b := h.(scheduled := true, idle := true, schedulings := h.schedulings + 1)];
    }

    /** qemu_bh_cancel and qemu_bh_delete */
    method CancelBh(b: Id, delete: bool)
      requires Inv(Abstract()) && Enabled(Abstract(), Cancel(b))
      modifies this`done, this`heap
      ensures Inv(Abstract()) && Snapshot() == Apply(old(Snapshot()), if delete then Delete(b) else Cancel(b))
    {
      hide Inv;
      StepKeepsInv(Abstract(), if delete then Delete(b) else Cancel(b));
      done := done + [if delete then Delete(b) else Cancel(b)];
      var h := heap[b].(scheduled := false);
      if delete {
        h := h.(deleted := true);
      }
      heap := heap[b := h];
    }

    /** Entering qemu_bh_poll, or async_context_pop with its loop of polls. */
    method EnterPoll(popping: bool)
      requires Inv(Abstract()) && Enabled(Abstract(), if popping then Pop else Poll)
      modifies this`done, this`frames
      ensures Inv(Abstract()) && Snapshot() == Apply(old(Snapshot()), if popping then Pop else Poll)
    {
      hide Inv;
      StepKeepsInv(Abstract(), if popping then Pop else Poll);
      done := done + [if popping then Pop else Poll];
      var list := contexts[|contexts| - 1].list;
      frames := frames + [Frame(|contexts| - 1, if list == [] then None else Some(list[0]), false, false, popping)];
    }

    /** One turn of the walk of the innermost poll; `run` is the bottom half whose callback is called. */
    method VisitNext() returns (run: Option<Id>)
      requires Inv(Abstract()) && Enabled(Abstract(), Advance) && frames[|frames| - 1].next.Some?
      modifies this`done, this`heap, this`frames
      ensures Inv(Abstract()) && Snapshot() == Apply(old(Snapshot()), Advance)
      ensures var b := old(frames[|frames| - 1].next.value); b in old(heap) && run == if Runnable(old(heap)[b]) then Some(b) else None
      ensures run.Some? ==> run.value in old(heap) && Runnable(old(heap)[run.value]) && run.value in contexts[|contexts| - 1].list
    {
      hide Inv, After;
      StepKeepsInv(Abstract(), Advance);
      done := done + [Advance];
      Innermost(Abstract());
      var f := frames[|frames| - 1];
      var b := f.next.value;
      var next := After(contexts[f.depth].list, b);
      var h := heap[b];
      if !h.deleted && h.scheduled {
        heap := heap[b := h.(scheduled := false, idle := false, runs := h.runs + 1)];
        frames := frames[|frames| - 1 := f.(next := next, ret := f.ret || !h.idle, inCallback := true)];
        return Some(b);
      }
      frames := frames[|frames| - 1 := f.(next := next)];
      return None;
    }

    /** The removal of deleted bottom halves at the end of qemu_bh_poll. */
    method RemoveDeleted()
      requires contexts != [] && forall b :: b in contexts[|contexts| - 1].list ==> b in heap
      modifies this`heap, this`contexts
      ensures Abstract() == Sweep(old(Abstract()))
    {
      hide Freed, Kept;
      var top := |contexts| - 1;
      var list, kept: seq<Id> := contexts[top].list, [];
      ghost var before := heap;
      NothingFreed(before);
      assert list[0..] == list && kept + Kept(before, list) == Kept(before, list);
      for i := 0 to |list|
        invariant heap == Freed(before, list[..i]) && Kept(before, list) == kept + Kept(before, list[i..])
        invariant contexts == old(contexts)
      {
        var b := list[i];
        assert list[..i + 1] == list[..i] + [b];
        FreedMore(before, list[..i], b);
        KeptFirst(before, list, i);
        if b !in heap || heap[b].deleted {
          heap := map x | x in heap && x != b :: heap[x];
          assert kept + ([] + Kept(before, list[i + 1..])) == kept + Kept(before, list[i + 1..]);
        } else {
          KeepAssoc(kept, b, Kept(before, list[i + 1..]));
          kept := kept + [b];
        }
      }
      assert list[..|list|] == list && list[|list|..] == [];
      KeptNothing(before, kept);
      contexts := contexts[top := contexts[top].(list := kept)];
    }

    /** Back from the callback of the innermost poll. */
    method ReturnToPoll()
      requires Inv(Abstract()) && Enabled(Abstract(), Return)
      modifies this`done, this`frames
      ensures Inv(Abstract()) && Snapshot() == Apply(old(Snapshot()), Return)
    {
      hide Inv;
      StepKeepsInv(Abstract(), Return);
      done := done + [Return];
      frames := frames[|frames| - 1 := frames[|frames| - 1].(inCallback := false)];
    }

    /** Back to the parent context, where a bottom half is created and scheduled. */
    method LeaveContext()
      requires |contexts| > 1
      modifies this`heap, this`unused, this`contexts, this`abandoned
      ensures Abstract() == BottomHalves.PopContext(old(Abstract()))
    {
      hide StillScheduled;
      var top := |contexts| - 1;
      abandoned := abandoned + StillScheduled(heap, contexts[top].list, contexts[top].everIdle);
      contexts := contexts[..top];
      var parent := contexts[top - 1];
      heap := heap[unused := Bh(true, false, false, 1, 0)];
      contexts := contexts[top - 1 := parent.(list := [unused] + parent.list)];
      unused := unused + 1;
    }

    /** The end of a walk: the sweep, then the return from qemu_bh_poll, another poll, or the rest of
        async_context_pop. */
    method FinishWalk()
      requires Inv(Abstract()) && Enabled(Abstract(), Advance) && frames[|frames| - 1].next.None?
      modifies this
      ensures Inv(Abstract()) && Snapshot() == Apply(old(Snapshot()), Advance)
    {
      hide Inv, Sweep, BottomHalves.PopContext;
      StepKeepsInv(Abstract(), Advance);
      done := done + [Advance];
      var f := frames[|frames| - 1];
      assert forall b :: b in contexts[|contexts| - 1].list ==> b in heap by { ListedIsAllocated(Abstract()); }
      ghost var st := Abstract();
      RemoveDeleted();
      SweepKeepsStack(st);
      frames := frames[..|frames| - 1];
      if f.popping {
        if f.ret {
          var top := |contexts| - 1;
          var list := contexts[top].list;
          frames := frames + [Frame(top, if list == [] then None else Some(list[0]), false, false, true)];
        } else {
          LeaveContext();
        }
      }
    }

    /** A step of running code. */
    method DoStep(ev: Event)
      requires Inv(Abstract()) && CanAct(Abstract()) && Simple(ev)
      modifies this
      ensures Inv(Abstract()) && Snapshot() == Apply(old(Snapshot()), ev)
    {
      hide Inv;
      NonEmpty(Abstract());
      match ev
      case Create =>
        var b := NewBh();
      case Schedule(b) => if b in heap { ScheduleBh(b); } else { done := done + [ev]; }
      case ScheduleIdle(b) => if b in heap { ScheduleBhIdle(b); } else { done := done + [ev]; }
      case Cancel(b) => if b in heap { CancelBh(b, false); } else { done := done + [ev]; }
      case Delete(b) => if b in heap { CancelBh(b, true); } else { done := done + [ev]; }
    }

    /** What a callback or the main loop does, one thing after the other. */
    method RunActions(acts: seq<Action>)
      requires Inv(Abstract()) && CanAct(Abstract())
      modifies this
      ensures Snapshot() == Execute(old(Snapshot()), acts)
      decreases Weight(todo) + SizeAll(acts), 4, 0, 0, 0
    {
      hide Inv, Weight, Act;
      assert acts[0..] == acts;
      for i := 0 to |acts|
        invariant Inv(Abstract()) && CanAct(Abstract()) && Execute(old(Snapshot()), acts) == Execute(Snapshot(), acts[i..])
        invariant Weight(todo) + SizeAll(acts[i..]) <= Weight(old(todo)) + SizeAll(acts)
      {
        assert acts[i..][0] == acts[i] && acts[i..][1..] == acts[i + 1..];
        RunAction(acts[i]);
      }
      assert acts[|acts|..] == [];
    }

    method RunAction(a: Action)
      requires Inv(Abstract()) && CanAct(Abstract())
      modifies this
      ensures Snapshot() == Act(old(Snapshot()), a)
      decreases Weight(todo) + Size(a), 3, 0, 0, 0
    {
      hide Inv, Weight, Execute, PollAll, PopAll, Step;
      ghost var w := Snapshot();
      match a
      case Do(ev) =>
        if ev.Create? || ev.Schedule? || ev.ScheduleIdle? || ev.Cancel? || ev.Delete? {
          DoStep(ev);
        }
      case PollNow =>
        NonEmpty(Abstract());
        if frames == [] || frames[|frames| - 1].depth < |contexts| - 1 {
          var ret := PollBh();
        }
      case Within(body) =>
        NonEmpty(Abstract());
        PushSteps(Abstract());
        PushContext();
        RunActions(body);
        CanPop(w.st, Abstract());
        PopContext();
    }

    /** One turn of the loop of qemu_bh_poll; the callback does what is next in `todo`. */
    method TurnOnce()
      requires Inv(Abstract()) && Polling(Abstract()) && Top(Abstract()).next.Some?
      modifies this
      ensures Snapshot() == Turn(old(Snapshot()))
      decreases Weight(todo), 0, |Waiting(heap)|, |Ahead(Abstract(), |frames| - 1)|, 0
    {
      hide Inv, Execute, Waiting, Ahead, Step, After, NoDup, Runnable;
      VisitSteps(Abstract());
      Innermost(Abstract());
      var run := VisitNext();
      if run.Some? {
        if todo != [] {
          var acts := todo[0];
          todo := todo[1..];
          RunActions(acts);
        }
        ReturnToPoll();
      }
    }

    /** The loop of qemu_bh_poll over the list. */
    method WalkList()
      requires Inv(Abstract()) && Polling(Abstract())
      modifies this
      ensures Snapshot() == Walk(old(Snapshot()))
      decreases Weight(todo), 0, |Waiting(heap)|, |Ahead(Abstract(), |frames| - 1)|, 1
    {
      hide Inv, Weight, Waiting, Ahead, Turn, Step;
      while frames[|frames| - 1].next.Some?
        invariant Inv(Abstract()) && Polling(Abstract()) && Walk(old(Snapshot())) == Walk(Snapshot())
        invariant Snapshot() == old(Snapshot()) || Nearer(old(Snapshot()), Snapshot())
        decreases Weight(todo), |Waiting(heap)|, |Ahead(Abstract(), |frames| - 1)|
      {
        TurnOnce();
      }
    }

    /** qemu_bh_poll: goes to every bottom half of the context once and in order, returns true exactly when
        it ran one that was not idle, and runs every one that was to run when it was called unless it
        was cancelled or deleted before its turn. */
    method PollBh() returns (ret: bool)
      requires Inv(Abstract()) && Enabled(Abstract(), Poll)
      modifies this
      ensures Snapshot() == PollAll(old(Snapshot())) && ret == PollVisits.PollResult(old(Snapshot()))
      ensures var w := old(Snapshot());
              var vs := PollVisits.PollVisits(w);
              var list := PollVisits.Current(w.st);
              && PollVisits.Ids(vs) == list && NoDup(list) && (ret <==> PollVisits.RanBusy(vs))
              && forall b :: b in list && b in w.st.heap && Runnable(w.st.heap[b])
                             ==> PollVisits.RunsUnlessWithdrawn(vs, PollVisits.PollEvents(w), 0, b)
      decreases Weight(todo), 2, 0, 0, 0
    {
      hide Inv, Weight, Walk, Step, PollVisits.PollVisits, PollVisits.PollEvents, PollVisits.RunsUnlessWithdrawn, PollVisits.RanBusy, PollVisits.Ids, NoDup, Runnable;
      ghost var w := Snapshot();
      forall b: Id {
        PollVisits.PollRunsScheduled(w, b);
      }
      PollStarts(Abstract());
      EnterPoll(false);
      WalkList();
      EndSteps(Abstract());
      ret := frames[|frames| - 1].ret;
      FinishWalk();
    }

    /** The loop of polls of async_context_pop, and back to the parent. */
    method PollAndPop()
      requires Inv(Abstract()) && Polling(Abstract()) && Top(Abstract()).popping && !Top(Abstract()).ret
      modifies this
      ensures Snapshot() == PopLoop(old(Snapshot()))
      decreases Weight(todo), 1, |Waiting(heap)|, 0, 0
    {
      hide Inv, Weight, Waiting, Walk, Step;
      ghost var w := Snapshot();
      var again := true;
      while again
        invariant Weight(todo) <= Weight(old(todo))
        invariant again ==> Inv(Abstract()) && Polling(Abstract()) && Top(Abstract()).popping && !Top(Abstract()).ret
        invariant PopLoop(w) == if again then PopLoop(Snapshot()) else Snapshot()
        decreases again, Weight(todo), |Waiting(heap)|
      {
        ghost var before := Snapshot();
        WalkList();
        PassEnds(before, Snapshot());
        EndSteps(Abstract());
        Innermost(Abstract());
        again := frames[|frames| - 1].ret;
        FinishWalk();
      }
    }

    /** async_context_pop: polls until a poll runs nothing, then back to the parent.  Its first pass runs
        every bottom half that was to run when it was called, unless it was cancelled or deleted before
        its turn. */
    method PopContext()
      requires Inv(Abstract()) && Enabled(Abstract(), Pop)
      modifies this
      ensures Snapshot() == PopAll(old(Snapshot()))
      ensures var w := old(Snapshot());
              var vs := PollVisits.PopVisits(w);
              var list := PollVisits.Current(w.st);
              && PollVisits.Ids(vs) == list && NoDup(list)
              && forall b :: b in list && b in w.st.heap && Runnable(w.st.heap[b])
                             ==> PollVisits.RunsUnlessWithdrawn(vs, PollVisits.PopEvents(w), 0, b)
      decreases Weight(todo), 2, 0, 0, 0
    {
      hide Inv, Weight, Waiting, Walk, Step, PopLoop, PollVisits.PopVisits, PollVisits.PopEvents, PollVisits.RunsUnlessWithdrawn, PollVisits.Ids, NoDup, Runnable;
      forall b: Id {
        PollVisits.PopRunsScheduled(Snapshot(), b);
      }
      PopStarts(Abstract());
      EnterPoll(true);
      PollAndPop();
    }
  }

  lemma Fresh(st: State)
    requires Inv(st)
    ensures st.unused !in st.heap
  {}

  lemma ListedIsAllocated(st: State)
    requires Inv(st) && st.contexts != []
    ensures forall b :: b in st.contexts[|st.contexts| - 1].list ==> b in st.heap
  {}

  lemma SweepKeepsStack(st: State)
    requires st.contexts != []
    ensures Sweep(st).frames == st.frames && |Sweep(st).contexts| == |st.contexts| && Sweep(st).abandoned == st.abandoned
    ensures Sweep(st).unused == st.unused
  {
    hide Kept, Freed;
  }

  lemma NothingFreed(heap: map<Id, Bh>)
    ensures Freed(heap, []) == heap
  {}

  lemma KeptNothing(heap: map<Id, Bh>, kept: seq<Id>)
    ensures kept + Kept(heap, []) == kept
  {}

  lemma KeptFirst(heap: map<Id, Bh>, list: seq<Id>, i: nat)
    requires i < |list|
    ensures Kept(heap, list[i..]) == (if list[i] in heap && heap[list[i]].deleted then [] else [list[i]]) + Kept(heap, list[i + 1..])
  {
    assert list[i..][0] == list[i] && list[i..][1..] == list[i + 1..];
  }

  lemma FreedMore(heap: map<Id, Bh>, list: seq<Id>, b: Id)
    ensures b in heap ==> (heap[b].deleted <==> b !in Freed(heap, list) || Freed(heap, list)[b].deleted)
    ensures
      var freed := Freed(heap, list);
      Freed(heap, list + [b]) == if b in heap && heap[b].deleted then map x | x in freed && x != b :: freed[x] else freed
  {}

  lemma KeepAssoc(kept: seq<Id>, b: Id, rest: seq<Id>)
    ensures kept + ([b] + rest) == kept + [b] + rest
  {}
}
