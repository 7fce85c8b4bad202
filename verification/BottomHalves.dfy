/** Bottom halves and async contexts.  A poll walks the list of the current context with a saved next
    pointer while the callbacks it runs create, schedule and delete bottom halves, push contexts and
    poll in them.  The steps of all active polls and of the code they call interleave as on a C stack:
    only the innermost poll or its callback moves. */
module BottomHalves {
  import opened Common
  import opened IdLists

  /** QEMUBH, with how often it was scheduled and run. */
  datatype Bh = Bh(scheduled: bool, idle: bool, deleted: bool, schedulings: nat, runs: nat)

  /** An AsyncContext: its list, first element first, and whether an idle bottom half was ever in it. */
  datatype Context = Context(list: seq<Id>, everIdle: bool)

  /** An active qemu_bh_poll: its context, the saved next pointer, its return value so far, whether it is
      inside a callback, and whether async_context_pop called it. */
  datatype Frame = Frame(depth: nat, next: Option<Id>, ret: bool, inCallback: bool, popping: bool)

  /** `heap` holds the allocated bottom halves.  The last three fields record a poll that followed a
      freed pointer, a callback run outside its context, and the bottom halves that were scheduled when
      their context was popped (with the context's everIdle). */
  datatype State = State(
    heap: map<Id, Bh>,
    unused: Id,
    contexts: seq<Context>,
    frames: seq<Frame>,
    followedFreed: bool,
    ranOutside: bool,
    abandoned: seq<(Id, bool)>)

  predicate Runnable(h: Bh) {
    !h.deleted && h.scheduled
  }

  // ----- what callbacks and the main loop do

  /** qemu_bh_new */
  function New(st: State): State
    requires st.contexts != []
  {
    var top := |st.contexts| - 1;
    var c := st.contexts[top];
    st.(heap := st.heap[st.unused := Bh(false, false, false, 0, 0)],
        unused := st.unused + 1,
        contexts := st.contexts[top := c.(list := [st.unused] + c.list)])
  }

  /** qemu_bh_schedule */
  function Scheduled(h: Bh): Bh {
    if h.scheduled then h else h.(scheduled := true, idle := false, schedulings := h.schedulings + 1)
  }

  /** qemu_bh_schedule_idle */
  function ScheduledIdle(h: Bh): Bh {
    if h.scheduled then h else h.(scheduled := true, idle := true, schedulings := h.schedulings + 1)
  }

  function SetBh(st: State, b: Id, h: Bh): State {
    st.(heap := st.heap[b := h])
  }

  function MarkIdle(contexts: seq<Context>, b: Id): (r: seq<Context>)
    ensures |r| == |contexts|
  {
    seq(|contexts|, k requires 0 <= k < |contexts| =>
      contexts[k].(everIdle := contexts[k].everIdle || b in contexts[k].list))
  }

  /** Entering qemu_bh_poll in the current context. */
  function StartPoll(st: State, popping: bool): State
    requires st.contexts != []
  {
    var top: nat := |st.contexts| - 1;
    st.(frames := st.frames + [Frame(top, First(st.contexts[top].list), false, false, popping)])
  }

  // ----- what the innermost poll does

  function SetTop(st: State, f: Frame): State
    requires st.frames != []
  {
    st.(frames := st.frames[|st.frames| - 1 := f])
  }

  /** One turn of the walk, up to calling the callback. */
  function Visit(st: State, b: Id): State
    requires st.frames != [] && st.contexts != [] && st.frames[|st.frames| - 1].depth < |st.contexts|
  {
    var f := st.frames[|st.frames| - 1];
    if b !in st.heap then st.(followedFreed := true)
    else
      var next, h := After(st.contexts[f.depth].list, b), st.heap[b];
      if Runnable(h) then
        SetTop(SetBh(st, b, h.(scheduled := false, idle := false, runs := h.runs + 1)),
               f.(next := next, ret := f.ret || !h.idle, inCallback := true))
          .(ranOutside := st.ranOutside || b !in st.contexts[|st.contexts| - 1].list)
      else SetTop(st, f.(next := next))
  }

  function Kept(heap: map<Id, Bh>, list: seq<Id>): (r: seq<Id>)
    ensures forall b :: b in r <==> b in list && !(b in heap && heap[b].deleted)
  {
    if list == [] then []
    else (if list[0] in heap && heap[list[0]].deleted then [] else [list[0]]) + Kept(heap, list[1..])
  }

  /** The deleted bottom halves of the list are freed. */
  function Freed(heap: map<Id, Bh>, list: seq<Id>): map<Id, Bh> {
    map b | b in heap && !(b in list && heap[b].deleted) :: heap[b]
  }

  /** The sweep at the end of qemu_bh_poll, over the list of the current context. */
  function Sweep(st: State): State
    requires st.contexts != []
  {
    var top := |st.contexts| - 1;
    var c := st.contexts[top];
    st.(heap := Freed(st.heap, c.list), contexts := st.contexts[top := c.(list := Kept(st.heap, c.list))])
  }

  /** The scheduled bottom halves of a list, with the context's everIdle. */
  function StillScheduled(heap: map<Id, Bh>, list: seq<Id>, everIdle: bool): seq<(Id, bool)> {
    if list == [] then []
    else
      (if list[0] in heap && Runnable(heap[list[0]]) then [(list[0], everIdle)] else []) + StillScheduled(heap, list[1..], everIdle)
  }

  /** The end of async_context_pop: back to the parent, where a bottom half is created and scheduled. */
  function PopContext(st: State): State
    requires |st.contexts| > 1
  {
    var top := |st.contexts| - 1;
    var c, parent := st.contexts[top], st.contexts[top - 1];
    st.(abandoned := st.abandoned + StillScheduled(st.heap, c.list, c.everIdle),
        contexts := st.contexts[..top][top - 1 := parent.(list := [st.unused] + parent.list)],
        heap := st.heap[st.unused := Bh(true, false, false, 1, 0)],
        unused := st.unused + 1)
  }

  /** The walk is over: sweep, then return, poll again or pop. */
  function EndPass(st: State): State
    requires st.frames != [] && st.contexts != [] && (st.frames[|st.frames| - 1].popping ==> |st.contexts| > 1)
  {
    var f := st.frames[|st.frames| - 1];
    var st' := Sweep(st).(frames := st.frames[..|st.frames| - 1]);
    if !f.popping then st'
    else if f.ret then StartPoll(st', true)
    else PopContext(st')
  }

  // ----- runs

  datatype Event =
    | Create | Schedule(b: Id) | ScheduleIdle(b: Id) | Cancel(b: Id) | Delete(b: Id)
    | Push | Poll | Pop
    | Return              // the callback returns to its poll
    | Advance             // the innermost poll moves on

  /** The running code is a callback or the main loop, not a poll. */
  predicate CanAct(st: State) {
    st.frames == [] || st.frames[|st.frames| - 1].inCallback
  }

  /** The current context is not being polled: it was pushed since the innermost poll began. */
  predicate Unpolled(st: State) {
    st.frames == [] || st.frames[|st.frames| - 1].depth < |st.contexts| - 1
  }

  /** Polls are entered only in contexts that are not being polled, callbacks leave the stack of
      contexts as they found it, and nobody uses a bottom half that was freed. */
  predicate Enabled(st: State, ev: Event) {
    && st.contexts != []
    && match ev
       case Create => CanAct(st)
       case Schedule(b) => CanAct(st) && b in st.heap
       case ScheduleIdle(b) => CanAct(st) && b in st.heap
       case Cancel(b) => CanAct(st) && b in st.heap
       case Delete(b) => CanAct(st) && b in st.heap
       case Push => CanAct(st)
       case Poll => CanAct(st) && Unpolled(st)
       case Pop => CanAct(st) && Unpolled(st) && |st.contexts| > 1
       case Return =>
         st.frames != [] && st.frames[|st.frames| - 1].inCallback && |st.contexts| == st.frames[|st.frames| - 1].depth + 1
       case Advance =>
         && st.frames != [] && !st.frames[|st.frames| - 1].inCallback && st.frames[|st.frames| - 1].depth < |st.contexts|
         && (st.frames[|st.frames| - 1].popping ==> |st.contexts| > 1)
  }

  function Step(st: State, ev: Event): State {
    if !Enabled(st, ev) then st
    else match ev
      case Create => New(st)
      case Schedule(b) => SetBh(st, b, Scheduled(st.heap[b]))
      case ScheduleIdle(b) => SetBh(st, b, ScheduledIdle(st.heap[b])).(contexts := MarkIdle(st.contexts, b))
      case Cancel(b) => SetBh(st, b, st.heap[b].(scheduled := false))
      case Delete(b) => SetBh(st, b, st.heap[b].(scheduled := false, deleted := true))
      case Push => st.(contexts := st.contexts + [Context([], false)])
      case Poll => StartPoll(st, false)
      case Pop => StartPoll(st, true)
      case Return => SetTop(st, st.frames[|st.frames| - 1].(inCallback := false))
      case Advance =>
        match st.frames[|st.frames| - 1].next
        case None => EndPass(st)
        case Some(b) => Visit(st, b)
  }

  function Run(st: State, evs: seq<Event>): State
    decreases |evs|
  {
    if evs == [] then st else Run(Step(st, evs[0]), evs[1..])
  }

  // ----- the invariant

  /** Every listed bottom half is allocated and is in one list, once. */
  ghost predicate Shape(heap: map<Id, Bh>, unused: Id, contexts: seq<Context>) {
    && contexts != []
    && (forall b :: b in heap ==> b < unused)
    && (forall k, b :: 0 <= k < |contexts| && b in contexts[k].list ==> b in heap)
    && (forall k :: 0 <= k < |contexts| ==> NoDup(contexts[k].list))
    && (forall k, l, b :: 0 <= k < l < |contexts| && b in contexts[k].list ==> b !in contexts[l].list)
  }

  /** Each scheduling is used by at most one run. */
  ghost predicate Counts(heap: map<Id, Bh>) {
    forall b :: b in heap ==> heap[b].runs + (if heap[b].scheduled then 1 else 0) <= heap[b].schedulings
  }

  /** Idle bottom halves are only in contexts marked as having had one. */
  ghost predicate Idles(heap: map<Id, Bh>, contexts: seq<Context>) {
    forall k, b :: 0 <= k < |contexts| && b in contexts[k].list && b in heap && heap[b].idle ==> contexts[k].everIdle
  }

  ghost predicate FrameFits(contexts: seq<Context>, f: Frame) {
    f.depth < |contexts| && (f.next.Some? ==> f.next.value in contexts[f.depth].list) && (f.popping ==> f.depth > 0)
  }

  /** Polls nest with the contexts, and all but the innermost are inside a callback. */
  ghost predicate Nest(contexts: seq<Context>, frames: seq<Frame>) {
    && (forall i :: 0 <= i < |frames| ==> FrameFits(contexts, frames[i]))
    && (forall i, j :: 0 <= i < j < |frames| ==> frames[i].depth < frames[j].depth && frames[i].inCallback)
    && (frames != [] && !frames[|frames| - 1].inCallback ==> |contexts| == frames[|frames| - 1].depth + 1)
  }

  function Before(list: seq<Id>, next: Option<Id>): seq<Id> {
    if list == [] || next == Some(list[0]) then [] else [list[0]] + Before(list[1..], next)
  }

  ghost predicate Quiet(heap: map<Id, Bh>, list: seq<Id>) {
    forall b :: b in list && b in heap ==> !Runnable(heap[b])
  }

  /** A pass that has run nothing has only walked over bottom halves that need not run, unless idle
      ones are about. */
  ghost predicate PassQuiet(heap: map<Id, Bh>, c: Context, f: Frame) {
    f.ret || c.everIdle || (!f.inCallback && Quiet(heap, Before(c.list, f.next)))
  }

  ghost predicate Passes(heap: map<Id, Bh>, contexts: seq<Context>, frames: seq<Frame>) {
    forall i :: 0 <= i < |frames| && frames[i].depth < |contexts| ==> PassQuiet(heap, contexts[frames[i].depth], frames[i])
  }

  ghost predicate OnlyIdle(abandoned: seq<(Id, bool)>) {
    forall i :: 0 <= i < |abandoned| ==> abandoned[i].1
  }

  ghost predicate Inv(st: State) {
    && Shape(st.heap, st.unused, st.contexts) && Counts(st.heap) && Idles(st.heap, st.contexts)
    && Nest(st.contexts, st.frames) && Passes(st.heap, st.contexts, st.frames)
    && !st.followedFreed && !st.ranOutside && OnlyIdle(st.abandoned)
  }

  // ----- lists

  lemma {:induction false} AfterInList(list: seq<Id>, b: Id)
    requires NoDup(list) && b in list
    ensures After(list, b).Some? ==> After(list, b).value in list
    ensures forall x :: x in Before(list, After(list, b)) ==> x in Before(list, Some(b)) || x == b
    decreases |list|
  {
    if list[0] == b {
      var rest := list[1..];
      if rest != [] {
        assert list[1] == rest[0] && list[0] != list[1];
        assert Before(rest, Some(rest[0])) == [];
        assert Before(list, After(list, b)) == [b] + [];
      } else {
        assert Before(list, None) == [b] + Before(rest, None);
      }
    } else {
      AfterInList(list[1..], b);
      var next := After(list[1..], b);
      assert next != Some(list[0]) by {
        if next.Some? { assert next.value in list[1..]; }
      }
      assert Before(list, next) == [list[0]] + Before(list[1..], next);
      assert Before(list, Some(b)) == [list[0]] + Before(list[1..], Some(b));
    }
  }

  lemma {:induction false} BeforeNone(list: seq<Id>)
    ensures Before(list, None) == list
  {
    if list != [] {
      BeforeNone(list[1..]);
    }
  }

  lemma BeforeFirst(list: seq<Id>)
    ensures Before(list, First(list)) == []
  {}

  lemma {:induction false} KeptNoDup(heap: map<Id, Bh>, list: seq<Id>)
    requires NoDup(list)
    ensures NoDup(Kept(heap, list))
  {
    if list != [] {
      var rest := list[1..];
      KeptNoDup(heap, rest);
      assert forall j :: 0 <= j < |rest| ==> rest[j] == list[j + 1];
      assert list[0] !in Kept(heap, rest);
    }
  }

  lemma {:induction false} NoneStillScheduled(heap: map<Id, Bh>, list: seq<Id>, everIdle: bool)
    requires Quiet(heap, list)
    ensures StillScheduled(heap, list, everIdle) == []
  {
    if list != [] {
      assert list[0] in list;
      NoneStillScheduled(heap, list[1..], everIdle);
    }
  }

  lemma {:induction false} StillScheduledMarks(heap: map<Id, Bh>, list: seq<Id>, everIdle: bool)
    requires everIdle
    ensures OnlyIdle(StillScheduled(heap, list, everIdle))
  {
    if list != [] {
      StillScheduledMarks(heap, list[1..], everIdle);
    }
  }

  // ----- what the running code does keeps the invariant

  /** While code runs, every poll is inside a callback. */
  lemma AllInCallbacks(st: State)
    requires Inv(st) && CanAct(st)
    ensures forall i :: 0 <= i < |st.frames| ==> st.frames[i].inCallback
  {}

  /** Polls inside callbacks do not mind what happens to the bottom halves. */
  lemma CallbackPasses(heap: map<Id, Bh>, heap': map<Id, Bh>, contexts: seq<Context>, contexts': seq<Context>, frames: seq<Frame>)
    requires Passes(heap, contexts, frames) && forall i :: 0 <= i < |frames| ==> frames[i].inCallback
    requires |contexts'| >= |contexts| && forall k :: 0 <= k < |contexts| ==> (contexts[k].everIdle ==> contexts'[k].everIdle)
    requires forall i :: 0 <= i < |frames| ==> frames[i].depth < |contexts|
    ensures Passes(heap', contexts', frames)
  {
    hide Quiet, Before;
  }

  lemma FitsHead(contexts: seq<Context>, k: nat, n: Id, frames: seq<Frame>)
    requires k < |contexts| && Nest(contexts, frames)
    ensures Nest(contexts[k := contexts[k].(list := [n] + contexts[k].list)], frames)
  {
    var contexts' := contexts[k := contexts[k].(list := [n] + contexts[k].list)];
    forall i | 0 <= i < |frames| ensures FrameFits(contexts', frames[i]) {
      assert FrameFits(contexts, frames[i]);
    }
  }

  /** A new bottom half at the head of a list. */
  lemma HeadShape(heap: map<Id, Bh>, unused: Id, contexts: seq<Context>, k: nat, h: Bh)
    requires Shape(heap, unused, contexts) && k < |contexts|
    ensures Shape(heap[unused := h], unused + 1, contexts[k := contexts[k].(list := [unused] + contexts[k].list)])
  {
    var contexts' := contexts[k := contexts[k].(list := [unused] + contexts[k].list)];
    assert unused !in heap;
    assert forall l, b :: 0 <= l < |contexts| && b in contexts[l].list ==> b in heap;
    assert NoDup(contexts[k].list);
    NoDupHead(contexts[k].list, unused);
    forall l, b | 0 <= l < |contexts'| && b in contexts'[l].list ensures b == unused || b in contexts[l].list {}
    forall i, j, b | 0 <= i < j < |contexts'| && b in contexts'[i].list ensures b !in contexts'[j].list {
      if b == unused {
        assert unused !in contexts[j].list;
      }
    }
  }

  lemma HeadIdles(heap: map<Id, Bh>, unused: Id, contexts: seq<Context>, k: nat, h: Bh)
    requires Idles(heap, contexts) && Shape(heap, unused, contexts) && k < |contexts| && !h.idle
    ensures Idles(heap[unused := h], contexts[k := contexts[k].(list := [unused] + contexts[k].list)])
  {}

  lemma CreateKeeps(st: State)
    requires Inv(st) && CanAct(st)
    ensures Inv(New(st))
  {
    hide Shape, Idles, Nest, Passes;
    assert st.contexts != [] by { NonEmpty(st); }
    var top: nat := |st.contexts| - 1;
    var h := Bh(false, false, false, 0, 0);
    var st' := New(st);
    HeadShape(st.heap, st.unused, st.contexts, top, h);
    HeadIdles(st.heap, st.unused, st.contexts, top, h);
    FitsHead(st.contexts, top, st.unused, st.frames);
    AllInCallbacks(st);
    Depths(st);
    CallbackPasses(st.heap, st'.heap, st.contexts, st'.contexts, st.frames);
  }

  lemma NonEmpty(st: State)
    requires Inv(st)
    ensures st.contexts != []
  {}

  lemma Depths(st: State)
    requires Inv(st)
    ensures forall i :: 0 <= i < |st.frames| ==> st.frames[i].depth < |st.contexts|
  {
    forall i | 0 <= i < |st.frames| ensures st.frames[i].depth < |st.contexts| {
      assert FrameFits(st.contexts, st.frames[i]);
    }
  }

  /** Changing the flags of one bottom half. */
  lemma SetBhKeeps(st: State, b: Id, h: Bh, contexts: seq<Context>)
    requires Inv(st) && CanAct(st) && b in st.heap
    requires h.runs + (if h.scheduled then 1 else 0) <= h.schedulings
    requires |contexts| == |st.contexts|
    requires forall k :: 0 <= k < |contexts| ==> contexts[k].list == st.contexts[k].list && (st.contexts[k].everIdle ==> contexts[k].everIdle)
    requires h.idle && !st.heap[b].idle ==> forall k :: 0 <= k < |contexts| && b in contexts[k].list ==> contexts[k].everIdle
    ensures Inv(SetBh(st, b, h).(contexts := contexts))
  {
    hide Passes;
    AllInCallbacks(st);
    Depths(st);
    CallbackPasses(st.heap, st.heap[b := h], st.contexts, contexts, st.frames);
    forall i | 0 <= i < |st.frames| ensures FrameFits(contexts, st.frames[i]) {
      assert FrameFits(st.contexts, st.frames[i]);
    }
    assert forall k :: 0 <= k < |contexts| ==> NoDup(st.contexts[k].list);
  }

  lemma FlagsKeep(st: State, ev: Event)
    requires Inv(st) && Enabled(st, ev) && (ev.Schedule? || ev.ScheduleIdle? || ev.Cancel? || ev.Delete?)
    ensures Inv(Step(st, ev))
  {
    hide Inv;
    var h := st.heap[ev.b];
    assert h.runs + (if h.scheduled then 1 else 0) <= h.schedulings by { CountOf(st, ev.b); }
    match ev
    case Schedule(b) => SetBhKeeps(st, b, Scheduled(h), st.contexts);
    case ScheduleIdle(b) => SetBhKeeps(st, b, ScheduledIdle(h), MarkIdle(st.contexts, b));
    case Cancel(b) => SetBhKeeps(st, b, h.(scheduled := false), st.contexts);
    case Delete(b) => SetBhKeeps(st, b, h.(scheduled := false, deleted := true), st.contexts);
  }

  lemma CountOf(st: State, b: Id)
    requires Inv(st) && b in st.heap
    ensures st.heap[b].runs + (if st.heap[b].scheduled then 1 else 0) <= st.heap[b].schedulings
  {}

  lemma PushKeeps(st: State)
    requires Inv(st) && CanAct(st)
    ensures Inv(st.(contexts := st.contexts + [Context([], false)]))
  {
    hide Passes;
    var contexts' := st.contexts + [Context([], false)];
    AllInCallbacks(st);
    Depths(st);
    CallbackPasses(st.heap, st.heap, st.contexts, contexts', st.frames);
    forall i | 0 <= i < |st.frames| ensures FrameFits(contexts', st.frames[i]) {
      assert FrameFits(st.contexts, st.frames[i]);
    }
    assert forall k :: 0 <= k < |st.contexts| ==> NoDup(st.contexts[k].list);
  }

  // ----- what polls do keeps the invariant

  lemma StartPollKeeps(st: State, popping: bool)
    requires Inv(st) && CanAct(st) && Unpolled(st) && (popping ==> |st.contexts| > 1)
    ensures Inv(StartPoll(st, popping))
  {
    hide Shape, Counts, Idles, PassQuiet;
    NonEmpty(st);
    var top: nat := |st.contexts| - 1;
    var c := st.contexts[top];
    var f := Frame(top, First(c.list), false, false, popping);
    AllInCallbacks(st);
    assert FrameFits(st.contexts, f);
    FreshPass(st.heap, c, f);
  }

  lemma FreshPass(heap: map<Id, Bh>, c: Context, f: Frame)
    requires !f.inCallback && f.next == First(c.list)
    ensures PassQuiet(heap, c, f)
  {
    BeforeFirst(c.list);
  }

  lemma ReturnKeeps(st: State)
    requires Inv(st) && Enabled(st, Return)
    ensures Inv(Step(st, Return))
  {
    hide Shape, Counts, Idles, Quiet, Before;
    var n := |st.frames| - 1;
    var f := st.frames[n];
    assert FrameFits(st.contexts, f) && PassQuiet(st.heap, st.contexts[f.depth], f);
  }

  /** The innermost poll: its context is the current one, and its saved pointer is in the list. */
  lemma Innermost(st: State)
    requires Inv(st) && st.frames != [] && !st.frames[|st.frames| - 1].inCallback
    ensures
      var f := st.frames[|st.frames| - 1];
      && |st.contexts| == f.depth + 1 && FrameFits(st.contexts, f) && PassQuiet(st.heap, st.contexts[f.depth], f)
      && NoDup(st.contexts[f.depth].list)
      && (f.next.Some? ==> f.next.value in st.contexts[f.depth].list && f.next.value in st.heap)
  {
    hide Counts, Idles, PassQuiet;
    var f := st.frames[|st.frames| - 1];
    assert FrameFits(st.contexts, f);
  }

  lemma QuietExtends(heap: map<Id, Bh>, c: Context, b: Id)
    requires NoDup(c.list) && b in c.list && b in heap && !Runnable(heap[b]) && Quiet(heap, Before(c.list, Some(b)))
    ensures Quiet(heap, Before(c.list, After(c.list, b)))
  {
    AfterInList(c.list, b);
  }

  /** Passing over a bottom half that need not run. */
  lemma SkipKeeps(st: State, b: Id)
    requires Inv(st) && Enabled(st, Advance) && st.frames[|st.frames| - 1].next == Some(b) && b in st.heap && !Runnable(st.heap[b])
    ensures Inv(Visit(st, b))
  {
    hide Shape, Counts, Idles, Quiet, Before, After, NoDup;
    Innermost(st);
    var n := |st.frames| - 1;
    var f := st.frames[n];
    var c := st.contexts[f.depth];
    AfterInList(c.list, b);
    var f' := f.(next := After(c.list, b));
    if !(f.ret || c.everIdle) {
      QuietExtends(st.heap, c, b);
    }
    assert PassQuiet(st.heap, c, f') && FrameFits(st.contexts, f');
    var frames' := st.frames[n := f'];
    forall i | 0 <= i < |frames'| ensures FrameFits(st.contexts, frames'[i]) && PassQuiet(st.heap, st.contexts[frames'[i].depth], frames'[i]) {
      if i < n {
        assert FrameFits(st.contexts, st.frames[i]);
      }
    }
  }

  lemma SameKeys(heap: map<Id, Bh>, b: Id, h: Bh, unused: Id, contexts: seq<Context>)
    requires Shape(heap, unused, contexts) && b in heap
    ensures Shape(heap[b := h], unused, contexts)
  {
    hide NoDup;
  }

  /** A bottom half that ran is no longer scheduled or idle. */
  function AfterRun(h: Bh): Bh {
    h.(scheduled := false, idle := false, runs := h.runs + 1)
  }

  lemma RunCounts(heap: map<Id, Bh>, b: Id, contexts: seq<Context>)
    requires Counts(heap) && Idles(heap, contexts) && b in heap && Runnable(heap[b])
    ensures Counts(heap[b := AfterRun(heap[b])]) && Idles(heap[b := AfterRun(heap[b])], contexts)
  {}

  /** The frames but for the innermost, which are inside callbacks, do not mind a run. */
  lemma OuterFrames(st: State, heap': map<Id, Bh>, f': Frame)
    requires Inv(st) && st.frames != [] && FrameFits(st.contexts, f') && PassQuiet(heap', st.contexts[f'.depth], f')
    requires f'.depth == st.frames[|st.frames| - 1].depth && |st.contexts| == f'.depth + 1
    ensures var frames' := st.frames[|st.frames| - 1 := f']; Nest(st.contexts, frames') && Passes(heap', st.contexts, frames')
  {
    hide Shape, Counts, Idles, Quiet, Before;
    var n := |st.frames| - 1;
    var frames' := st.frames[n := f'];
    forall i | 0 <= i < |frames'| ensures FrameFits(st.contexts, frames'[i]) && PassQuiet(heap', st.contexts[frames'[i].depth], frames'[i]) {
      if i < n {
        assert FrameFits(st.contexts, st.frames[i]) && PassQuiet(st.heap, st.contexts[st.frames[i].depth], st.frames[i]);
      }
    }
  }

  /** Running a callback. */
  lemma CallKeeps(st: State, b: Id)
    requires Inv(st) && Enabled(st, Advance) && st.frames[|st.frames| - 1].next == Some(b) && b in st.heap && Runnable(st.heap[b])
    ensures Inv(Visit(st, b))
  {
    hide Quiet, Before, After, NoDup, Shape, Counts, Idles, Nest, Passes, OnlyIdle;
    Innermost(st);
    var h := st.heap[b];
    var heap' := st.heap[b := AfterRun(h)];
    SameKeys(st.heap, b, AfterRun(h), st.unused, st.contexts);
    RunCounts(st.heap, b, st.contexts);
    var f := st.frames[|st.frames| - 1];
    var c := st.contexts[f.depth];
    AfterInList(c.list, b);
    var f' := f.(next := After(c.list, b), ret := f.ret || !h.idle, inCallback := true);
    assert h.idle ==> c.everIdle by { IdleListed(st, f.depth, b); }
    OuterFrames(st, heap', f');
  }

  lemma IdleListed(st: State, k: nat, b: Id)
    requires Inv(st) && k < |st.contexts| && b in st.contexts[k].list && b in st.heap
    ensures st.heap[b].idle ==> st.contexts[k].everIdle
  {}

  lemma SweepShape(heap: map<Id, Bh>, unused: Id, contexts: seq<Context>)
    requires Shape(heap, unused, contexts)
    ensures
      var top := |contexts| - 1;
      var c := contexts[top];
      Shape(Freed(heap, c.list), unused, contexts[top := c.(list := Kept(heap, c.list))])
  {
    hide NoDup;
    var top := |contexts| - 1;
    var c := contexts[top];
    var heap', contexts' := Freed(heap, c.list), contexts[top := c.(list := Kept(heap, c.list))];
    KeptNoDup(heap, c.list);
    forall k, b | 0 <= k < |contexts'| && b in contexts'[k].list ensures b in heap' && b in contexts[k].list {
      assert b in contexts[k].list && b in heap;
      if k < top {
        assert b !in c.list;
      }
    }
  }

  lemma SweepCounts(heap: map<Id, Bh>, contexts: seq<Context>)
    requires Counts(heap) && Idles(heap, contexts) && contexts != []
    ensures
      var top := |contexts| - 1;
      var c := contexts[top];
      && Counts(Freed(heap, c.list)) && Idles(Freed(heap, c.list), contexts[top := c.(list := Kept(heap, c.list))])
      && (Quiet(heap, c.list) ==> Quiet(Freed(heap, c.list), Kept(heap, c.list)))
  {
    hide Kept;
    KeptMeans(heap, contexts[|contexts| - 1].list);
  }

  lemma KeptMeans(heap: map<Id, Bh>, list: seq<Id>)
    ensures forall b :: b in Kept(heap, list) ==> b in list
  {}

  lemma SweepFrames(st: State)
    requires Inv(st) && st.frames != [] && !st.frames[|st.frames| - 1].inCallback
    ensures
      var st' := Sweep(st).(frames := st.frames[..|st.frames| - 1]);
      Nest(st'.contexts, st'.frames) && Passes(st'.heap, st'.contexts, st'.frames) && CanAct(st') && Unpolled(st')
  {
    hide Before, Shape, Counts, Idles, Quiet, Kept, Freed;
    Innermost(st);
    var n := |st.frames| - 1;
    var st' := Sweep(st).(frames := st.frames[..n]);
    forall i | 0 <= i < n ensures FrameFits(st'.contexts, st'.frames[i]) && PassQuiet(st'.heap, st'.contexts[st'.frames[i].depth], st'.frames[i]) {
      assert FrameFits(st.contexts, st.frames[i]) && PassQuiet(st.heap, st.contexts[st.frames[i].depth], st.frames[i]);
      assert st.frames[i].depth < st.frames[n].depth;
    }
  }

  /** The deleted bottom halves are freed, and the poll returns to whoever called it. */
  lemma SweepKeeps(st: State)
    requires Inv(st) && st.frames != [] && !st.frames[|st.frames| - 1].inCallback
    ensures
      var st' := Sweep(st).(frames := st.frames[..|st.frames| - 1]);
      && Inv(st') && CanAct(st') && Unpolled(st') && |st'.contexts| == |st.contexts|
      && st'.contexts[|st'.contexts| - 1].everIdle == st.contexts[|st.contexts| - 1].everIdle
      && (Quiet(st.heap, st.contexts[|st.contexts| - 1].list) ==> Quiet(st'.heap, st'.contexts[|st'.contexts| - 1].list))
  {
    hide Shape, Counts, Idles, Nest, Passes, Quiet, Kept, Freed, CanAct, Unpolled, OnlyIdle;
    assert st.contexts != [] by { NonEmpty(st); }
    SweepShape(st.heap, st.unused, st.contexts);
    SweepCounts(st.heap, st.contexts);
    SweepFrames(st);
  }

  lemma DropContext(heap: map<Id, Bh>, unused: Id, contexts: seq<Context>, frames: seq<Frame>)
    requires Shape(heap, unused, contexts) && Idles(heap, contexts) && Nest(contexts, frames) && |contexts| > 1
    requires forall i :: 0 <= i < |frames| ==> frames[i].inCallback && frames[i].depth < |contexts| - 1
    ensures
      var contexts' := contexts[..|contexts| - 1];
      Shape(heap, unused, contexts') && Idles(heap, contexts') && Nest(contexts', frames)
  {
    hide NoDup;
    var contexts' := contexts[..|contexts| - 1];
    forall i | 0 <= i < |frames| ensures FrameFits(contexts', frames[i]) {
      assert FrameFits(contexts, frames[i]);
    }
    assert forall k :: 0 <= k < |contexts'| ==> contexts'[k] == contexts[k];
  }

  lemma AbandonsIdle(st: State)
    requires Inv(st) && |st.contexts| > 1
    requires var c := st.contexts[|st.contexts| - 1]; c.everIdle || Quiet(st.heap, c.list)
    ensures OnlyIdle(PopContext(st).abandoned)
  {
    hide Shape, Counts, Idles, Nest, Passes, Quiet, Runnable, StillScheduled;
    var c := st.contexts[|st.contexts| - 1];
    if c.everIdle {
      StillScheduledMarks(st.heap, c.list, c.everIdle);
    } else {
      NoneStillScheduled(st.heap, c.list, c.everIdle);
    }
  }

  lemma HeadCounts(heap: map<Id, Bh>, unused: Id)
    requires Counts(heap)
    ensures Counts(heap[unused := Bh(true, false, false, 1, 0)])
  {}

  lemma PopKeeps(st: State)
    requires Inv(st) && CanAct(st) && Unpolled(st) && |st.contexts| > 1
    requires var c := st.contexts[|st.contexts| - 1]; c.everIdle || Quiet(st.heap, c.list)
    ensures Inv(PopContext(st))
  {
    hide Shape, Counts, Idles, Nest, Passes, Quiet, StillScheduled, OnlyIdle;
    var top := |st.contexts| - 1;
    var contexts' := st.contexts[..top];
    var h := Bh(true, false, false, 1, 0);
    assert forall i :: 0 <= i < |st.frames| ==> st.frames[i].inCallback && st.frames[i].depth < top by {
      AllInCallbacks(st);
      FramesBelow(st);
    }
    DropContext(st.heap, st.unused, st.contexts, st.frames);
    HeadShape(st.heap, st.unused, contexts', top - 1, h);
    HeadIdles(st.heap, st.unused, contexts', top - 1, h);
    HeadCounts(st.heap, st.unused);
    FitsHead(contexts', top - 1, st.unused, st.frames);
    PassesBelow(st.heap, st.contexts, contexts', st.frames);
    CallbackPasses(st.heap, st.heap[st.unused := h], contexts', PopContext(st).contexts, st.frames);
    AbandonsIdle(st);
  }

  lemma FramesBelow(st: State)
    requires Inv(st) && Unpolled(st)
    ensures forall i :: 0 <= i < |st.frames| ==> st.frames[i].depth < |st.contexts| - 1
  {}

  lemma PassesBelow(heap: map<Id, Bh>, contexts: seq<Context>, contexts': seq<Context>, frames: seq<Frame>)
    requires Passes(heap, contexts, frames) && contexts != [] && contexts' == contexts[..|contexts| - 1]
    requires forall i :: 0 <= i < |frames| ==> frames[i].depth < |contexts'|
    ensures Passes(heap, contexts', frames)
  {
    hide PassQuiet;
  }

  lemma EndPassKeeps(st: State)
    requires Inv(st) && Enabled(st, Advance) && st.frames[|st.frames| - 1].next == None
    ensures Inv(EndPass(st))
  {
    hide Shape, Counts, Idles, Nest, Passes, Quiet, Before, Sweep;
    Innermost(st);
    SweepKeeps(st);
    var f := st.frames[|st.frames| - 1];
    var c := st.contexts[|st.contexts| - 1];
    BeforeNone(c.list);
    var st' := Sweep(st).(frames := st.frames[..|st.frames| - 1]);
    if f.popping {
      if f.ret {
        StartPollKeeps(st', true);
      } else {
        PopKeeps(st');
      }
    }
  }

  lemma StepKeepsInv(st: State, ev: Event)
    requires Inv(st)
    ensures Inv(Step(st, ev))
  {
    hide Inv, Visit, EndPass, New, StartPoll;
    if Enabled(st, ev) {
      match ev
      case Create => CreateKeeps(st);
      case Push => PushKeeps(st);
      case Poll => StartPollKeeps(st, false);
      case Pop => StartPollKeeps(st, true);
      case Return => ReturnKeeps(st);
      case Advance =>
        var next := st.frames[|st.frames| - 1].next;
        if next == None {
          EndPassKeeps(st);
        } else {
          Innermost(st);
          if Runnable(st.heap[next.value]) {
            CallKeeps(st, next.value);
          } else {
            SkipKeeps(st, next.value);
          }
        }
      case _ => FlagsKeep(st, ev);
    }
  }

  /** The main loop with its one context. */
  predicate Initial(st: State) {
    st == State(map[], 0, [Context([], false)], [], false, false, [])
  }

  /** In every run with nested polls only in pushed contexts: no poll follows a freed bottom half, no
      callback runs outside its context, no scheduling causes two runs, and only contexts that had
      idle bottom halves lose scheduled ones when popped. */
  lemma {:induction false} RunKeepsInv(st: State, evs: seq<Event>)
    requires Inv(st)
    ensures
      var st' := Run(st, evs);
      && Inv(st') && !st'.followedFreed && !st'.ranOutside
      && (forall b :: b in st'.heap ==> st'.heap[b].runs <= st'.heap[b].schedulings)
      && (forall i :: 0 <= i < |st'.abandoned| ==> st'.abandoned[i].1)
    decreases |evs|
  {
    hide Step, Shape, Idles, Nest, Passes;
    if evs != [] {
      StepKeepsInv(st, evs[0]);
      RunKeepsInv(Step(st, evs[0]), evs[1..]);
    }
  }

  lemma InitialInv(st: State)
    requires Initial(st)
    ensures Inv(st)
  {}

  // ----- runs in pieces

  lemma {:induction false} RunConcat(st: State, a: seq<Event>, b: seq<Event>)
    ensures Run(st, a + b) == Run(Run(st, a), b)
    decreases |a|
  {
    hide Step;
    if a == [] {
      assert a + b == b;
    } else {
      assert (a + b)[1..] == a[1..] + b;
      RunConcat(Step(st, a[0]), a[1..], b);
    }
  }

  lemma RunOne(st: State, ev: Event)
    ensures Run(st, [ev]) == Step(st, ev)
  {
    hide Step;
    assert [ev][1..] == [];
  }

  lemma RunNone(st: State)
    ensures Run(st, []) == st
  {}
}
