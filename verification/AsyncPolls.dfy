/** Whole polls and pops.  What each callback does is given in advance; a poll runs its walk to the end,
    with the callbacks, the polls of the contexts they push and the pops of these inside it. */
module AsyncPolls {
  import opened IdLists
  import opened BottomHalves

  /** What running code does: a step of its own, qemu_bh_poll, or something between async_context_push
      and async_context_pop. */
  datatype Action = Do(ev: Event) | PollNow | Within(body: seq<Action>)

  /** `todo` is what the callbacks still to be called will do, in the order they are called, and nothing
      once it is used up; `done` are the steps so far. */
  datatype World = World(st: State, todo: seq<seq<Action>>, done: seq<Event>)

  predicate Simple(ev: Event) {
    ev.Create? || ev.Schedule? || ev.ScheduleIdle? || ev.Cancel? || ev.Delete?
  }

  function Apply(w: World, ev: Event): World {
    World(Step(w.st, ev), w.todo, w.done + [ev])
  }

  function Top(st: State): Frame
    requires st.frames != []
  {
    st.frames[|st.frames| - 1]
  }

  /** The innermost poll moves, not a callback. */
  predicate Polling(st: State) {
    st.frames != [] && !Top(st).inCallback
  }

  /** What the innermost poll has ahead of it. */
  function Ahead(st: State, m: nat): seq<Id>
    requires m < |st.frames|
  {
    var f := st.frames[m];
    if f.depth < |st.contexts| then From(st.contexts[f.depth].list, f.next) else []
  }

  // ----- why all this ends

  function Size(a: Action): nat {
    match a
    case Do(_) => 1
    case PollNow => 1
    case Within(body) => 1 + SizeAll(body)
  }

  function SizeAll(acts: seq<Action>): nat {
    if acts == [] then 0 else Size(acts[0]) + SizeAll(acts[1..])
  }

  function Weight(todo: seq<seq<Action>>): nat {
    if todo == [] then 0 else 1 + SizeAll(todo[0]) + Weight(todo[1..])
  }

  function Waiting(heap: map<Id, Bh>): set<Id> {
    set b | b in heap && Runnable(heap[b])
  }

  // ----- single steps

  lemma SimpleKeeps(st: State, ev: Event)
    requires Inv(st) && Simple(ev)
    ensures var st' := Step(st, ev); Inv(st') && st'.frames == st.frames && |st'.contexts| == |st.contexts|
  {
    hide Inv;
    StepKeepsInv(st, ev);
  }

  lemma PollStarts(st: State)
    requires Inv(st) && Enabled(st, Poll)
    ensures
      var st' := Step(st, Poll);
      && Inv(st') && st'.heap == st.heap && st'.contexts == st.contexts
      && st'.frames == st.frames + [Frame(|st.contexts| - 1, First(st.contexts[|st.contexts| - 1].list), false, false, false)]
  {
    hide Inv;
    StepKeepsInv(st, Poll);
  }

  lemma PopStarts(st: State)
    requires Inv(st) && Enabled(st, Pop)
    ensures
      var st' := Step(st, Pop);
      && Inv(st') && st'.heap == st.heap && st'.contexts == st.contexts
      && st'.frames == st.frames + [Frame(|st.contexts| - 1, First(st.contexts[|st.contexts| - 1].list), false, false, true)]
  {
    hide Inv;
    StepKeepsInv(st, Pop);
  }

  lemma PushSteps(st: State)
    requires Inv(st) && CanAct(st)
    ensures var st' := Step(st, Push); Inv(st') && st'.frames == st.frames && |st'.contexts| == |st.contexts| + 1
  {
    hide Inv;
    NonEmpty(st);
    StepKeepsInv(st, Push);
  }

  /** After a push, and after what is done there, the context can be popped. */
  lemma CanPop(st: State, st': State)
    requires Inv(st) && CanAct(st) && Inv(st') && st'.frames == st.frames && |st'.contexts| == |st.contexts| + 1
    ensures Enabled(st', Pop)
  {
    hide Inv;
    NonEmpty(st);
    Depths(st);
  }

  /** The innermost poll goes to the next bottom half, and calls it if it is to run. */
  lemma VisitSteps(st: State)
    requires Inv(st) && Polling(st) && Top(st).next.Some?
    ensures
      var f := Top(st);
      var b := f.next.value;
      var st' := Step(st, Advance);
      && b in st.heap && Inv(st') && st'.contexts == st.contexts && f.depth == |st.contexts| - 1
      && b in st.contexts[f.depth].list && NoDup(st.contexts[f.depth].list)
      && var f' := f.(next := After(st.contexts[f.depth].list, b));
      && if Runnable(st.heap[b]) then
           && st'.frames == st.frames[|st.frames| - 1 := f'.(ret := f.ret || !st.heap[b].idle, inCallback := true)]
           && Waiting(st'.heap) == Waiting(st.heap) - {b} && b in Waiting(st.heap)
         else st'.heap == st.heap && st'.frames == st.frames[|st.frames| - 1 := f']
  {
    hide Inv, After, NoDup;
    Innermost(st);
    StepKeepsInv(st, Advance);
  }

  lemma ReturnSteps(st: State)
    requires Inv(st) && st.frames != [] && Top(st).inCallback && |st.contexts| == Top(st).depth + 1
    ensures
      var st' := Step(st, Return);
      && Inv(st') && st'.heap == st.heap && st'.contexts == st.contexts
      && st'.frames == st.frames[|st.frames| - 1 := Top(st).(inCallback := false)]
  {
    hide Inv;
    StepKeepsInv(st, Return);
  }

  /** The end of a walk. */
  lemma EndSteps(st: State)
    requires Inv(st) && Polling(st) && Top(st).next.None?
    ensures
      var n, f, st' := |st.frames| - 1, Top(st), Step(st, Advance);
      && Inv(st') && f.depth == |st.contexts| - 1
      && if !f.popping then st'.frames == st.frames[..n] && |st'.contexts| == |st.contexts|
         else if f.ret then
           && |st'.contexts| == |st.contexts| && Waiting(st'.heap) <= Waiting(st.heap)
           && st'.frames == st.frames[..n] + [Frame(f.depth, First(st'.contexts[f.depth].list), false, false, true)]
         else st'.frames == st.frames[..n] && |st'.contexts| == |st.contexts| - 1
  {
    hide Inv, StillScheduled, Kept;
    Innermost(st);
    StepKeepsInv(st, Advance);
  }

  // ----- running to the end

  /** Code ran to its end: the polls around it are where they were, in the same contexts. */
  ghost predicate Ran(w: World, r: World) {
    Inv(r.st) && r.st.frames == w.st.frames && |r.st.contexts| == |w.st.contexts| && Weight(r.todo) <= Weight(w.todo)
  }

  ghost predicate SamePoll(st: State, st': State)
    requires st.frames != []
  {
    && |st'.frames| == |st.frames| && st'.frames[..|st.frames| - 1] == st.frames[..|st.frames| - 1]
    && Top(st').depth == Top(st).depth && Top(st').popping == Top(st).popping && |st'.contexts| == |st.contexts|
  }

  /** The innermost poll moved; if it has now run something that is not idle, less is left to do. */
  ghost predicate Moved(w: World, r: World)
    requires w.st.frames != []
  {
    && Inv(r.st) && Polling(r.st) && SamePoll(w.st, r.st)
    && (|| Weight(r.todo) < Weight(w.todo)
        || (&& Weight(r.todo) == Weight(w.todo) && |Waiting(r.st.heap)| <= |Waiting(w.st.heap)|
            && (Top(r.st).ret && !Top(w.st).ret ==> |Waiting(r.st.heap)| < |Waiting(w.st.heap)|)))
  }

  ghost predicate Nearer(w: World, r: World)
    requires w.st.frames != [] && r.st.frames != []
  {
    || Weight(r.todo) < Weight(w.todo)
    || (&& Weight(r.todo) == Weight(w.todo)
        && (|| |Waiting(r.st.heap)| < |Waiting(w.st.heap)|
            || (&& |Waiting(r.st.heap)| == |Waiting(w.st.heap)|
                && |Ahead(r.st, |r.st.frames| - 1)| < |Ahead(w.st, |w.st.frames| - 1)|)))
  }

  ghost function Execute(w: World, acts: seq<Action>): (r: World)
    requires Inv(w.st) && CanAct(w.st)
    ensures Ran(w, r)
    decreases Weight(w.todo) + SizeAll(acts), 4, 0, 0, 0
  {
    if acts == [] then w else Execute(Act(w, acts[0]), acts[1..])
  }

  ghost function Act(w: World, a: Action): (r: World)
    requires Inv(w.st) && CanAct(w.st)
    ensures Ran(w, r)
    decreases Weight(w.todo) + Size(a), 3, 0, 0, 0
  {
    match a
    case Do(ev) => if Simple(ev) then SimpleKeeps(w.st, ev); Apply(w, ev) else w
    case PollNow => if Enabled(w.st, Poll) then PollAll(w) else w
    case Within(body) =>
      PushSteps(w.st);
      var w' := Execute(Apply(w, Push), body);
      CanPop(w.st, w'.st);
      PopAll(w')
  }

  /** qemu_bh_poll */
  ghost function PollAll(w: World): (r: World)
    requires Inv(w.st) && Enabled(w.st, Poll)
    ensures Ran(w, r)
    decreases Weight(w.todo), 2, 0, 0, 0
  {
    PollStarts(w.st);
    var w' := Walk(Apply(w, Poll));
    EndSteps(w'.st);
    PollEnds(w, w');
    Apply(w', Advance)
  }

  lemma PollEnds(w: World, w': World)
    requires Inv(w.st) && Enabled(w.st, Poll) && Step(w.st, Poll).frames != []
    requires Moved(Apply(w, Poll), w') && Top(w'.st).next.None?
    ensures Ran(w, Apply(w', Advance))
  {
    hide Inv, Waiting, Enabled, Step, Weight;
    PollStarts(w.st);
    EndSteps(w'.st);
    var st := Step(w.st, Poll);
    assert st.frames[..|st.frames| - 1] == w.st.frames;
  }

  /** async_context_pop: polls as long as they run something. */
  ghost function PopAll(w: World): (r: World)
    requires Inv(w.st) && Enabled(w.st, Pop)
    ensures Inv(r.st) && r.st.frames == w.st.frames && |r.st.contexts| == |w.st.contexts| - 1 && Weight(r.todo) <= Weight(w.todo)
    decreases Weight(w.todo), 2, 0, 0, 0
  {
    PopStarts(w.st);
    PopLoop(Apply(w, Pop))
  }

  ghost function PopLoop(w: World): (r: World)
    requires Inv(w.st) && Polling(w.st) && Top(w.st).popping && !Top(w.st).ret
    ensures Inv(r.st) && r.st.frames == w.st.frames[..|w.st.frames| - 1] && |r.st.contexts| == |w.st.contexts| - 1
    ensures Weight(r.todo) <= Weight(w.todo)
    decreases Weight(w.todo), 1, |Waiting(w.st.heap)|, 0, 0
  {
    var w' := Walk(w);
    EndSteps(w'.st);
    PassEnds(w, w');
    if Top(w'.st).ret then PopLoop(Apply(w', Advance)) else Apply(w', Advance)
  }

  lemma PassEnds(w: World, w': World)
    requires Inv(w.st) && Polling(w.st) && Top(w.st).popping && !Top(w.st).ret
    requires Moved(w, w') && Top(w'.st).next.None?
    ensures
      var n, r := |w.st.frames| - 1, Apply(w', Advance);
      && Inv(r.st) && Weight(r.todo) <= Weight(w.todo)
      && if Top(w'.st).ret then
           && Polling(r.st) && Top(r.st).popping && !Top(r.st).ret && r.st.frames[..|r.st.frames| - 1] == w.st.frames[..n]
           && |r.st.contexts| == |w.st.contexts|
           && (Weight(r.todo) < Weight(w.todo) || |Waiting(r.st.heap)| < |Waiting(w.st.heap)|)
         else r.st.frames == w.st.frames[..n] && |r.st.contexts| == |w.st.contexts| - 1
  {
    hide Inv, Waiting, Step, Weight;
    EndSteps(w'.st);
    if Top(w'.st).ret {
      var s := Step(w'.st, Advance);
      SubsetSize(Waiting(s.heap), Waiting(w'.st.heap));
      assert s.frames[..|s.frames| - 1] == w'.st.frames[..|w'.st.frames| - 1];
    }
  }

  lemma {:induction false} SubsetSize(a: set<Id>, b: set<Id>)
    requires a <= b
    ensures |a| <= |b|
    decreases a
  {
    if a != {} {
      var x :| x in a;
      SubsetSize(a - {x}, b - {x});
    }
  }

  /** The walk of the innermost poll, to its end. */
  ghost function Walk(w: World): (r: World)
    requires Inv(w.st) && Polling(w.st)
    ensures Moved(w, r) && Top(r.st).next.None?
    decreases Weight(w.todo), 0, |Waiting(w.st.heap)|, |Ahead(w.st, |w.st.frames| - 1)|, 1
  {
    if Top(w.st).next.None? then w
    else
      var w' := Turn(w);
      MovedTwice(w, w');
      Walk(w')
  }

  lemma MovedTwice(w: World, w': World)
    requires w.st.frames != [] && Moved(w, w')
    ensures forall r :: Moved(w', r) ==> Moved(w, r)
  {
    hide Inv, Waiting, Weight;
  }

  /** One turn of the loop of qemu_bh_poll. */
  ghost function Turn(w: World): (r: World)
    requires Inv(w.st) && Polling(w.st) && Top(w.st).next.Some?
    ensures Moved(w, r) && Nearer(w, r)
    decreases Weight(w.todo), 0, |Waiting(w.st.heap)|, |Ahead(w.st, |w.st.frames| - 1)|, 0
  {
    VisitSteps(w.st);
    var w' := Apply(w, Advance);
    if !Runnable(w.st.heap[Top(w.st).next.value]) then
      SkipMoves(w);
      w'
    else if w.todo == [] then
      CallMoves(w, w');
      Apply(w', Return)
    else
      var r := Execute(w'.(todo := w.todo[1..]), w.todo[0]);
      CallMoves(w, r);
      Apply(r, Return)
  }

  lemma SkipMoves(w: World)
    requires Inv(w.st) && Polling(w.st) && Top(w.st).next.Some?
    requires Top(w.st).next.value in w.st.heap && !Runnable(w.st.heap[Top(w.st).next.value])
    ensures Moved(w, Apply(w, Advance)) && Nearer(w, Apply(w, Advance))
  {
    hide Inv, Waiting, Step, Weight, Runnable, From, After, NoDup;
    VisitSteps(w.st);
    var f := Top(w.st);
    FromAfter(w.st.contexts[f.depth].list, f.next.value);
    var st' := Step(w.st, Advance);
    assert st'.frames[..|st'.frames| - 1] == w.st.frames[..|w.st.frames| - 1];
  }

  /** The callback has run, from the state the visit led to, with less left for the callbacks to do or
      nothing at all. */
  lemma CallMoves(w: World, r: World)
    requires Inv(w.st) && Polling(w.st) && Top(w.st).next.Some?
    requires Top(w.st).next.value in w.st.heap && Runnable(w.st.heap[Top(w.st).next.value])
    requires if w.todo == [] then r == Apply(w, Advance)
             else Inv(r.st) && r.st.frames == Apply(w, Advance).st.frames && |r.st.contexts| == |w.st.contexts| && Weight(r.todo) < Weight(w.todo)
    ensures Moved(w, Apply(r, Return)) && Nearer(w, Apply(r, Return))
  {
    hide Inv, Waiting, Step, Runnable, From, After, NoDup, Weight;
    VisitSteps(w.st);
    ReturnSteps(r.st);
    var st' := Step(r.st, Return);
    assert st'.frames[..|st'.frames| - 1] == w.st.frames[..|w.st.frames| - 1];
  }
}
