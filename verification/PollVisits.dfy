/** What a poll does to the bottom halves of its context: it goes to each of them once, in order, runs
    those that are to run when it gets there, and returns whether one of them was not idle. */
module PollVisits {
  import opened Common
  import opened IdLists
  import opened BottomHalves
  import opened AsyncPolls

  // ----- the steps a world has made

  /** The n-th poll is at the end of its walk. */
  predicate OwnEnd(st: State, ev: Event, n: nat) {
    ev == Advance && n > 0 && |st.frames| == n && !st.frames[n - 1].inCallback && st.frames[n - 1].next.None?
  }

  /** The first n polls stay active, and the n-th does not come to the end of its walk. */
  ghost predicate Above(st: State, evs: seq<Event>, n: nat)
    decreases |evs|
  {
    evs == [] || (|Step(st, evs[0]).frames| >= n && !OwnEnd(st, evs[0], n) && Above(Step(st, evs[0]), evs[1..], n))
  }

  lemma EndsLess(st: State, ev: Event, n: nat)
    requires OwnEnd(st, ev, n)
    ensures |Step(st, ev).frames| <= n
  {
    hide Kept, Freed, StillScheduled;
  }

  lemma {:induction false} AboveConcat(st: State, a: seq<Event>, b: seq<Event>, n: nat)
    requires Above(st, a, n) && Above(Run(st, a), b, n)
    ensures Above(st, a + b, n)
    decreases |a|
  {
    hide Step;
    if a == [] {
      assert a + b == b;
    } else {
      assert (a + b)[1..] == a[1..] + b;
      AboveConcat(Step(st, a[0]), a[1..], b, n);
    }
  }

  lemma {:induction false} AboveLess(st: State, evs: seq<Event>, n: nat, m: nat)
    requires Above(st, evs, n) && m <= n
    ensures Above(st, evs, m)
    decreases |evs|
  {
    hide Step;
    if evs != [] {
      if OwnEnd(st, evs[0], m) {
        EndsLess(st, evs[0], m);
      }
      AboveLess(Step(st, evs[0]), evs[1..], n, m);
    }
  }

  function New(w: World, r: World): seq<Event>
    requires |w.done| <= |r.done|
  {
    r.done[|w.done|..]
  }

  /** The second world comes from the first by the steps it lists. */
  ghost predicate Goes(w: World, r: World, n: nat) {
    w.done <= r.done && r.st == Run(w.st, New(w, r)) && Above(w.st, New(w, r), n)
  }

  lemma GoesNone(w: World, r: World, n: nat)
    requires r.st == w.st && r.done == w.done
    ensures Goes(w, r, n)
  {
    assert New(w, r) == [];
  }

  lemma GoesOne(w: World, r: World, ev: Event, n: nat)
    requires r.st == w.st && r.done == w.done && |Step(w.st, ev).frames| >= n && !OwnEnd(w.st, ev, n)
    ensures Goes(w, Apply(r, ev), n)
  {
    hide Step;
    var r' := Apply(r, ev);
    assert New(w, r') == [ev];
    RunOne(w.st, ev);
    AboveOne(w.st, ev, n);
  }

  lemma AboveOne(st: State, ev: Event, n: nat)
    requires |Step(st, ev).frames| >= n && !OwnEnd(st, ev, n)
    ensures Above(st, [ev], n)
  {
    hide Step;
    var evs := [ev];
    assert evs[1..] == [];
    assert Above(Step(st, ev), evs[1..], n);
  }

  lemma GoesThen(a: World, b: World, c: World, n: nat)
    requires Goes(a, b, n) && Goes(b, c, n)
    ensures Goes(a, c, n)
  {
    hide Run, Above;
    assert New(a, c) == New(a, b) + New(b, c);
    RunConcat(a.st, New(a, b), New(b, c));
    AboveConcat(a.st, New(a, b), New(b, c), n);
  }

  lemma GoesLess(w: World, r: World, n: nat, m: nat)
    requires Goes(w, r, n) && m <= n
    ensures Goes(w, r, m)
  {
    hide Run, Above;
    AboveLess(w.st, New(w, r), n, m);
  }

  lemma {:induction false} ExecuteGoes(w: World, acts: seq<Action>)
    requires Inv(w.st) && CanAct(w.st)
    ensures Goes(w, Execute(w, acts), |w.st.frames|)
    decreases Weight(w.todo) + SizeAll(acts), 4, 0, 0, 0
  {
    hide Inv, Goes, Step, Act, Weight;
    if acts == [] {
      GoesNone(w, w, |w.st.frames|);
    } else {
      var w' := Act(w, acts[0]);
      ActGoes(w, acts[0]);
      SizePositive(acts[0]);
      ExecuteGoes(w', acts[1..]);
      GoesThen(w, w', Execute(w', acts[1..]), |w.st.frames|);
    }
  }

  lemma SizePositive(a: Action)
    ensures Size(a) > 0
  {}

  lemma {:induction false} ActGoes(w: World, a: Action)
    requires Inv(w.st) && CanAct(w.st)
    ensures Goes(w, Act(w, a), |w.st.frames|)
    decreases Weight(w.todo) + Size(a), 3, 0, 0, 0
  {
    hide Inv, Goes, Step, Enabled, Execute, PollAll, PopAll, Weight;
    var n := |w.st.frames|;
    match a
    case Do(ev) =>
      if Simple(ev) {
        SimpleKeeps(w.st, ev);
        GoesOne(w, w, ev, n);
      } else {
        GoesNone(w, w, n);
      }
    case PollNow =>
      if Enabled(w.st, Poll) {
        PollGoes(w);
      } else {
        GoesNone(w, w, n);
      }
    case Within(body) =>
      PushSteps(w.st);
      var w1 := Apply(w, Push);
      GoesOne(w, w, Push, n);
      var w2 := Execute(w1, body);
      ExecuteGoes(w1, body);
      CanPop(w.st, w2.st);
      PopGoes(w2);
      GoesThen(w, w1, w2, n);
      GoesThen(w, w2, PopAll(w2), n);
  }

  lemma {:induction false} PollGoes(w: World)
    requires Inv(w.st) && Enabled(w.st, Poll)
    ensures Goes(w, PollAll(w), |w.st.frames|)
    decreases Weight(w.todo), 2, 0, 0, 0
  {
    hide Inv, Goes, Step, Enabled, Walk, Weight;
    var n := |w.st.frames|;
    PollStarts(w.st);
    var w1 := Apply(w, Poll);
    GoesOne(w, w, Poll, n);
    var w2 := Walk(w1);
    WalkGoes(w1);
    GoesLess(w1, w2, n + 1, n);
    EndSteps(w2.st);
    GoesOne(w2, w2, Advance, n);
    GoesThen(w, w1, w2, n);
    GoesThen(w, w2, PollAll(w), n);
  }

  lemma {:induction false} PopGoes(w: World)
    requires Inv(w.st) && Enabled(w.st, Pop)
    ensures Goes(w, PopAll(w), |w.st.frames|)
    decreases Weight(w.todo), 2, 0, 0, 0
  {
    hide Inv, Goes, Step, Enabled, PopLoop, Weight;
    var n := |w.st.frames|;
    PopStarts(w.st);
    var w1 := Apply(w, Pop);
    GoesOne(w, w, Pop, n);
    PopLoopGoes(w1);
    GoesThen(w, w1, PopAll(w), n);
  }

  lemma {:induction false} PopLoopGoes(w: World)
    requires Inv(w.st) && Polling(w.st) && Top(w.st).popping && !Top(w.st).ret
    ensures Goes(w, PopLoop(w), |w.st.frames| - 1)
    decreases Weight(w.todo), 1, |Waiting(w.st.heap)|, 0, 0
  {
    hide Inv, Goes, Step, Walk, Weight, Waiting;
    var n := |w.st.frames| - 1;
    var w1 := Walk(w);
    WalkGoes(w);
    GoesLess(w, w1, n + 1, n);
    EndSteps(w1.st);
    PassEnds(w, w1);
    var w2 := Apply(w1, Advance);
    GoesOne(w1, w1, Advance, n);
    GoesThen(w, w1, w2, n);
    if Top(w1.st).ret {
      PopLoopGoes(w2);
      GoesLess(w2, PopLoop(w2), |w2.st.frames| - 1, n);
      GoesThen(w, w2, PopLoop(w2), n);
    }
  }

  lemma {:induction false} WalkGoes(w: World)
    requires Inv(w.st) && Polling(w.st)
    ensures Goes(w, Walk(w), |w.st.frames|)
    decreases Weight(w.todo), 0, |Waiting(w.st.heap)|, |Ahead(w.st, |w.st.frames| - 1)|, 1
  {
    hide Inv, Goes, Step, Turn, Weight, Waiting, Ahead;
    var n := |w.st.frames|;
    if Top(w.st).next.None? {
      GoesNone(w, w, n);
    } else {
      var w' := Turn(w);
      TurnGoes(w);
      WalkGoes(w');
      GoesThen(w, w', Walk(w'), n);
    }
  }

  lemma {:induction false} TurnGoes(w: World)
    requires Inv(w.st) && Polling(w.st) && Top(w.st).next.Some?
    ensures Goes(w, Turn(w), |w.st.frames|)
    decreases Weight(w.todo), 0, |Waiting(w.st.heap)|, |Ahead(w.st, |w.st.frames| - 1)|, 0
  {
    hide Inv, Goes, Step, Execute, Waiting, Ahead, Runnable;
    var n := |w.st.frames|;
    VisitSteps(w.st);
    var w1 := Apply(w, Advance);
    GoesOne(w, w, Advance, n);
    if Runnable(w.st.heap[Top(w.st).next.value]) {
      if w.todo == [] {
        ReturnSteps(w1.st);
        GoesOne(w1, w1, Return, n);
        GoesThen(w, w1, Apply(w1, Return), n);
      } else {
        var w2 := w1.(todo := w.todo[1..]);
        GoesNone(w1, w2, n);
        var w3 := Execute(w2, w.todo[0]);
        ExecuteGoes(w2, w.todo[0]);
        GoesThen(w1, w2, w3, n);
        ReturnSteps(w3.st);
        GoesOne(w3, w3, Return, n);
        GoesThen(w, w1, w3, n);
        GoesThen(w, w3, Apply(w3, Return), n);
      }
    }
  }

  // ----- the visits of one poll

  /** A bottom half a poll went to: whether it ran, whether it was idle, and at which step. */
  datatype Visit = Visit(b: Id, ran: bool, idle: bool, at: nat)

  /** The m-th poll is innermost and goes to a bottom half. */
  predicate IsVisit(st: State, ev: Event, m: nat) {
    && ev == Advance && |st.frames| == m + 1 && !st.frames[m].inCallback && st.frames[m].next.Some?
    && st.frames[m].next.value in st.heap
  }

  function VisitOf(st: State, m: nat, k: nat): Visit
    requires IsVisit(st, Advance, m)
  {
    var b := st.frames[m].next.value;
    Visit(b, Runnable(st.heap[b]), st.heap[b].idle, k)
  }

  function Visits(st: State, evs: seq<Event>, m: nat, k: nat): seq<Visit>
    decreases |evs|
  {
    if evs == [] then []
    else (if IsVisit(st, evs[0], m) then [VisitOf(st, m, k)] else []) + Visits(Step(st, evs[0]), evs[1..], m, k + 1)
  }

  function Ids(vs: seq<Visit>): (r: seq<Id>)
    ensures |r| == |vs|
  {
    seq(|vs|, i requires 0 <= i < |vs| => vs[i].b)
  }

  /** Some visit ran a bottom half that was not idle. */
  predicate RanBusy(vs: seq<Visit>) {
    exists i :: 0 <= i < |vs| && vs[i].ran && !vs[i].idle
  }

  /** What one step does to the m-th poll while it stays: it visits what it has next, or keeps what is
      ahead of it. */
  ghost predicate Walks(st: State, ev: Event, m: nat)
    requires m < |st.frames|
  {
    var st' := Step(st, ev);
    && m < |st'.frames|
    && Ahead(st, m) == (if IsVisit(st, ev, m) then [st.frames[m].next.value] else []) + Ahead(st', m)
    && st'.frames[m].ret == (st.frames[m].ret || (IsVisit(st, ev, m) && VisitOf(st, m, 0).ran && !VisitOf(st, m, 0).idle))
  }

  lemma SameAhead(st: State, st': State, m: nat)
    requires m < |st.frames| && m < |st'.frames| && st'.frames[m].depth == st.frames[m].depth && st'.frames[m].next == st.frames[m].next
    requires st.frames[m].depth < |st.contexts| && st.frames[m].depth < |st'.contexts|
    requires st'.contexts[st.frames[m].depth].list == st.contexts[st.frames[m].depth].list
    ensures Ahead(st', m) == Ahead(st, m) == [] + Ahead(st', m)
  {}

  /** Something new at the head of the list is not ahead of the poll. */
  lemma HeadAhead(st: State, st': State, m: nat, n: Id)
    requires m < |st.frames| && m < |st'.frames| && st'.frames[m].depth == st.frames[m].depth && st'.frames[m].next == st.frames[m].next
    requires st.frames[m].depth < |st.contexts| && st.frames[m].depth < |st'.contexts|
    requires var list := st.contexts[st.frames[m].depth].list;
             && st'.contexts[st.frames[m].depth].list == [n] + list && n !in list
             && (st.frames[m].next.Some? ==> st.frames[m].next.value in list)
    ensures Ahead(st', m) == Ahead(st, m) == [] + Ahead(st', m)
  {
    hide From;
    var list := st.contexts[st.frames[m].depth].list;
    FromHead(list, n, st.frames[m].next);
    FromNone(list);
    FromNone([n] + list);
  }

  lemma FrameOf(st: State, m: nat)
    requires Inv(st) && m < |st.frames|
    ensures FrameFits(st.contexts, st.frames[m]) && st.unused !in st.contexts[st.frames[m].depth].list
    ensures forall i :: m < i < |st.frames| ==> st.frames[m].depth < st.frames[i].depth < |st.contexts|
  {
    hide Counts, Idles, Passes;
    assert FrameFits(st.contexts, st.frames[m]);
    forall i | m < i < |st.frames| ensures st.frames[m].depth < st.frames[i].depth < |st.contexts| {
      assert FrameFits(st.contexts, st.frames[i]);
    }
    assert forall b :: b in st.contexts[st.frames[m].depth].list ==> b in st.heap;
  }

  /** Steps of running code. */
  lemma CodeWalks(st: State, ev: Event, m: nat)
    requires Inv(st) && m < |st.frames| && ev != Advance && ev != Return
    ensures Walks(st, ev, m)
  {
    hide Inv, Ahead;
    FrameOf(st, m);
    var st' := Step(st, ev);
    if Enabled(st, ev) && ev == Create {
      if st.frames[m].depth == |st.contexts| - 1 {
        HeadAhead(st, st', m, st.unused);
      } else {
        SameAhead(st, st', m);
      }
    } else {
      SameAhead(st, st', m);
    }
  }

  lemma ReturnWalks(st: State, m: nat)
    requires Inv(st) && m < |st.frames|
    ensures Walks(st, Return, m)
  {
    hide Inv, Ahead;
    FrameOf(st, m);
    SameAhead(st, Step(st, Return), m);
  }

  /** The poll itself moves. */
  lemma OwnVisit(st: State, m: nat)
    requires Inv(st) && |st.frames| == m + 1 && Polling(st) && st.frames[m].next.Some?
    ensures Walks(st, Advance, m)
  {
    hide Inv, Step, From, After, NoDup, Runnable;
    VisitSteps(st);
    var f := st.frames[m];
    FromAfter(st.contexts[f.depth].list, f.next.value);
  }

  /** A poll inside one of its callbacks moves. */
  lemma InnerAdvance(st: State, m: nat)
    requires Inv(st) && m + 1 < |st.frames| && Polling(st)
    ensures Walks(st, Advance, m)
  {
    hide Inv, Ahead, After, StillScheduled, Kept, Freed;
    FrameOf(st, m);
    Innermost(st);
    var st' := Step(st, Advance);
    var f, g := st.frames[m], Top(st);
    if g.next.None? && g.popping && !g.ret && f.depth == g.depth - 1 {
      HeadAhead(st, st', m, st.unused);
    } else {
      SameAhead(st, st', m);
    }
  }

  lemma StepWalks(st: State, ev: Event, m: nat)
    requires Inv(st) && m < |st.frames| && m < |Step(st, ev).frames| && !OwnEnd(st, ev, m + 1)
    ensures Walks(st, ev, m)
  {
    hide Inv, Walks;
    if ev == Return {
      ReturnWalks(st, m);
    } else if ev != Advance {
      CodeWalks(st, ev, m);
    } else if !Polling(st) {
      Stays(st, m);
    } else if m + 1 < |st.frames| {
      InnerAdvance(st, m);
    } else {
      OwnVisit(st, m);
    }
  }

  lemma Stays(st: State, m: nat)
    requires m < |st.frames| && !Polling(st)
    ensures Walks(st, Advance, m)
  {
    assert [] + Ahead(st, m) == Ahead(st, m);
  }

  /** Over any stretch of a poll: what it visits and what is then ahead of it are together what was ahead
      of it, and its return value tells whether it ran a bottom half that was not idle. */
  lemma {:induction false} VisitsAll(st: State, evs: seq<Event>, m: nat, k: nat)
    requires Inv(st) && m < |st.frames| && Above(st, evs, m + 1)
    ensures
      var st' := Run(st, evs);
      var vs := Visits(st, evs, m, k);
      && Inv(st') && m < |st'.frames| && Ahead(st, m) == Ids(vs) + Ahead(st', m)
      && (st'.frames[m].ret <==> st.frames[m].ret || RanBusy(vs))
    decreases |evs|
  {
    hide Inv, Step, Ahead, VisitOf, Ids, RanBusy;
    if evs == [] {
      NoIds(Ahead(st, m));
    } else {
      var st' := Step(st, evs[0]);
      StepKeepsInv(st, evs[0]);
      StepWalks(st, evs[0], m);
      VisitsAll(st', evs[1..], m, k + 1);
      var vs := Visits(st', evs[1..], m, k + 1);
      if IsVisit(st, evs[0], m) {
        IdsFirst(VisitOf(st, m, k), vs, Ahead(Run(st, evs), m));
        VisitIs(st, m, k);
      } else {
        assert [] + vs == vs;
        assert [] + Ahead(st', m) == Ahead(st', m);
      }
    }
  }

  lemma NoIds(ahead: seq<Id>)
    ensures ahead == Ids([]) + ahead && !RanBusy([])
  {}

  lemma IdsFirst(v: Visit, vs: seq<Visit>, ahead: seq<Id>)
    ensures Ids([v] + vs) + ahead == [v.b] + (Ids(vs) + ahead)
    ensures RanBusy([v] + vs) <==> (v.ran && !v.idle) || RanBusy(vs)
  {
    var all := [v] + vs;
    assert Ids(all) == [v.b] + Ids(vs);
    if RanBusy(vs) {
      var i :| 0 <= i < |vs| && vs[i].ran && !vs[i].idle;
      assert all[i + 1] == vs[i];
    }
    if v.ran && !v.idle {
      assert all[0] == v;
    }
  }

  lemma VisitIs(st: State, m: nat, k: nat)
    requires IsVisit(st, Advance, m)
    ensures VisitOf(st, m, k) == VisitOf(st, m, 0).(at := k) && VisitOf(st, m, k).b == st.frames[m].next.value
  {}

  // ----- what is scheduled runs

  predicate Withdraws(ev: Event, b: Id) {
    ev == Cancel(b) || ev == Delete(b)
  }

  /** A bottom half that is to run, and is ahead of a poll, stays so until the poll gets to it or it is
      cancelled or deleted. */
  lemma StepRunnable(st: State, ev: Event, m: nat, b: Id)
    requires Inv(st) && m < |st.frames| && !OwnEnd(st, ev, m + 1) && b in Ahead(st, m) && b in st.heap && Runnable(st.heap[b])
    requires !Withdraws(ev, b) && !(IsVisit(st, ev, m) && st.frames[m].next == Some(b))
    ensures b in Step(st, ev).heap && Runnable(Step(st, ev).heap[b])
  {
    hide Inv, Ahead, After, StillScheduled, Kept, First;
    AheadListed(st, m, b);
    FrameOf(st, m);
    if ev == Advance && Polling(st) {
      Innermost(st);
      ApartFrom(st, m, b);
    }
    assert st.unused != b by { Bounded(st, b); }
  }

  lemma Bounded(st: State, b: Id)
    requires Inv(st) && b in st.heap
    ensures b != st.unused
  {}

  lemma {:induction false} FromListed(list: seq<Id>, next: Option<Id>, b: Id)
    requires b in From(list, next)
    ensures b in list
    decreases |list|
  {
    if list != [] && next != Some(list[0]) {
      FromListed(list[1..], next, b);
    }
  }

  lemma AheadListed(st: State, m: nat, b: Id)
    requires Inv(st) && m < |st.frames| && b in Ahead(st, m)
    ensures st.frames[m].depth < |st.contexts| && b in st.contexts[st.frames[m].depth].list
  {
    FrameOf(st, m);
    FromListed(st.contexts[st.frames[m].depth].list, st.frames[m].next, b);
  }

  /** The polls inside go to the bottom halves of other contexts. */
  lemma ApartFrom(st: State, m: nat, b: Id)
    requires Inv(st) && m < |st.frames| && Polling(st) && b in Ahead(st, m)
    ensures m + 1 < |st.frames| ==> Top(st).next != Some(b)
  {
    hide Counts, Idles, Passes, Ahead;
    AheadListed(st, m, b);
    Innermost(st);
    if m + 1 < |st.frames| {
      FrameOf(st, m);
    }
  }

  /** A visit to b that does not run it comes after b was withdrawn. */
  ghost predicate RunsUnlessWithdrawn(vs: seq<Visit>, evs: seq<Event>, k: nat, b: Id) {
    forall i :: 0 <= i < |vs| && vs[i].b == b ==> vs[i].ran || WithdrawnBefore(evs, vs[i].at - k, b)
  }

  predicate WithdrawnBefore(evs: seq<Event>, n: int, b: Id) {
    exists j :: 0 <= j < n && j < |evs| && Withdraws(evs[j], b)
  }

  lemma {:induction false} VisitsLater(st: State, evs: seq<Event>, m: nat, k: nat)
    ensures forall i :: 0 <= i < |Visits(st, evs, m, k)| ==> Visits(st, evs, m, k)[i].at >= k
    decreases |evs|
  {
    hide Step, IsVisit;
    if evs != [] {
      VisitsLater(Step(st, evs[0]), evs[1..], m, k + 1);
    }
  }

  /** Every bottom half ahead of a poll that is to run is run when the poll gets to it, unless it was
      cancelled or deleted before. */
  lemma {:induction false} VisitsRun(st: State, evs: seq<Event>, m: nat, k: nat, b: Id)
    requires Inv(st) && m < |st.frames| && Above(st, evs, m + 1)
    requires b in Ahead(st, m) && b in st.heap && Runnable(st.heap[b])
    ensures RunsUnlessWithdrawn(Visits(st, evs, m, k), evs, k, b)
    decreases |evs|
  {
    hide Inv, Step, Ahead, Withdraws, Runnable, VisitOf;
    if evs != [] {
      var st', rest := Step(st, evs[0]), evs[1..];
      var vs := Visits(st', rest, m, k + 1);
      StepKeepsInv(st, evs[0]);
      StepWalks(st, evs[0], m);
      VisitsLater(st', rest, m, k + 1);
      if Withdraws(evs[0], b) {
        WithdrawnNow(st, evs, m, k, b);
      } else if IsVisit(st, evs[0], m) && st.frames[m].next == Some(b) {
        VisitRuns(st, m, k);
        assert b !in Ahead(st', m) by { AheadOnce(st, m, b, Ahead(st', m)); }
        VisitsAll(st', rest, m, k + 1);
        NotAmong(vs, Ahead(Run(st', rest), m), b);
        assert Visits(st, evs, m, k) == [VisitOf(st, m, k)] + vs;
      } else {
        StepRunnable(st, evs[0], m, b);
        assert b in Ahead(st', m);
        VisitsRun(st', rest, m, k + 1, b);
        Later(vs, evs, k, b);
        if IsVisit(st, evs[0], m) {
          VisitRuns(st, m, k);
        }
      }
    }
  }

  lemma VisitRuns(st: State, m: nat, k: nat)
    requires IsVisit(st, Advance, m)
    ensures st.frames[m].next == Some(VisitOf(st, m, k).b) && VisitOf(st, m, k).b in st.heap
    ensures VisitOf(st, m, k).ran == Runnable(st.heap[VisitOf(st, m, k).b]) && VisitOf(st, m, k).at == k
  {}

  lemma WithdrawnNow(st: State, evs: seq<Event>, m: nat, k: nat, b: Id)
    requires evs != [] && Withdraws(evs[0], b)
    ensures RunsUnlessWithdrawn(Visits(st, evs, m, k), evs, k, b)
  {
    hide Step;
    var vs := Visits(Step(st, evs[0]), evs[1..], m, k + 1);
    VisitsLater(Step(st, evs[0]), evs[1..], m, k + 1);
    assert Visits(st, evs, m, k) == [] + vs == vs;
    forall i | 0 <= i < |vs| ensures WithdrawnBefore(evs, vs[i].at - k, b) {
      assert vs[i].at >= k + 1;
    }
  }

  lemma Later(vs: seq<Visit>, evs: seq<Event>, k: nat, b: Id)
    requires evs != [] && RunsUnlessWithdrawn(vs, evs[1..], k + 1, b)
    ensures RunsUnlessWithdrawn(vs, evs, k, b)
  {
    hide Withdraws;
    forall i | 0 <= i < |vs| && vs[i].b == b && !vs[i].ran ensures WithdrawnBefore(evs, vs[i].at - k, b) {
      var j :| 0 <= j < vs[i].at - (k + 1) && j < |evs[1..]| && Withdraws(evs[1..][j], b);
      assert evs[j + 1] == evs[1..][j];
    }
  }

  lemma AheadOnce(st: State, m: nat, b: Id, rest: seq<Id>)
    requires Inv(st) && m < |st.frames| && Ahead(st, m) == [b] + rest
    ensures b !in rest
  {
    hide Counts, Idles, Passes, From, NoDup;
    FrameOf(st, m);
    FromDistinct(st.contexts[st.frames[m].depth].list, st.frames[m].next);
    NoDupTail([b] + rest);
  }

  lemma NotAmong(vs: seq<Visit>, rest: seq<Id>, b: Id)
    requires b !in Ids(vs) + rest
    ensures forall i :: 0 <= i < |vs| ==> vs[i].b != b
  {
    forall i | 0 <= i < |vs| ensures vs[i].b != b {
      assert (Ids(vs) + rest)[i] == vs[i].b;
    }
  }

  // ----- whole polls

  /** The steps of the walk of the innermost poll. */
  ghost function WalkSteps(w: World): seq<Event>
    requires Inv(w.st) && Polling(w.st)
  {
    WalkGoes(w);
    New(w, Walk(w))
  }

  ghost function WalkVisits(w: World): seq<Visit>
    requires Inv(w.st) && Polling(w.st)
  {
    Visits(w.st, WalkSteps(w), |w.st.frames| - 1, 0)
  }

  /** The bottom halves of the current context. */
  function Current(st: State): seq<Id> {
    if st.contexts == [] then [] else st.contexts[|st.contexts| - 1].list
  }

  /** A pass from the head of the list. */
  lemma WalkRunsScheduled(w: World, b: Id)
    requires Inv(w.st) && Polling(w.st) && Top(w.st).next == First(Current(w.st))
    ensures Ids(WalkVisits(w)) == Current(w.st) && NoDup(Current(w.st))
    ensures Top(Walk(w).st).ret <==> Top(w.st).ret || RanBusy(WalkVisits(w))
    ensures b in Current(w.st) && b in w.st.heap && Runnable(w.st.heap[b]) ==> RunsUnlessWithdrawn(WalkVisits(w), WalkSteps(w), 0, b)
  {
    hide Inv, Step, Walk, Above, Visits, Runnable, From, RunsUnlessWithdrawn, NoDup, Run;
    var m, list := |w.st.frames| - 1, Current(w.st);
    WalkGoes(w);
    var w' := Walk(w);
    var evs := WalkSteps(w);
    assert Ahead(w.st, m) == list && NoDup(list) by { FromHeadOfList(w.st); }
    VisitsAll(w.st, evs, m, 0);
    EndSteps(w'.st);
    FromNone(w'.st.contexts[|w'.st.contexts| - 1].list);
    assert Ids(WalkVisits(w)) + [] == Ids(WalkVisits(w));
    if b in list && b in w.st.heap && Runnable(w.st.heap[b]) {
      VisitsRun(w.st, evs, m, 0, b);
    }
  }

  lemma FromHeadOfList(st: State)
    requires Inv(st) && Polling(st) && Top(st).next == First(Current(st))
    ensures Ahead(st, |st.frames| - 1) == Current(st) && NoDup(Current(st))
  {
    hide Inv, From, NoDup;
    Innermost(st);
    FromFirst(Current(st));
  }

  /** The steps of the walk of a poll entered now. */
  ghost function PollEvents(w: World): seq<Event>
    requires Inv(w.st) && Enabled(w.st, Poll)
  {
    PollStarts(w.st);
    WalkSteps(Apply(w, Poll))
  }

  ghost function PollVisits(w: World): seq<Visit>
    requires Inv(w.st) && Enabled(w.st, Poll)
  {
    PollStarts(w.st);
    WalkVisits(Apply(w, Poll))
  }

  /** What qemu_bh_poll returns. */
  ghost predicate PollResult(w: World)
    requires Inv(w.st) && Enabled(w.st, Poll)
  {
    PollStarts(w.st);
    Top(Walk(Apply(w, Poll)).st).ret
  }

  /** qemu_bh_poll goes to every bottom half its context had, once and in order; it returns true exactly
      when it ran one that was not idle; and one that was to run when it was called is run, unless it
      was cancelled or deleted before its turn. */
  lemma PollRunsScheduled(w: World, b: Id)
    requires Inv(w.st) && Enabled(w.st, Poll)
    ensures Ids(PollVisits(w)) == Current(w.st) && NoDup(Current(w.st))
    ensures PollResult(w) <==> RanBusy(PollVisits(w))
    ensures b in Current(w.st) && b in w.st.heap && Runnable(w.st.heap[b]) ==> RunsUnlessWithdrawn(PollVisits(w), PollEvents(w), 0, b)
  {
    hide Inv, Step, Walk, WalkSteps, WalkVisits, Runnable, RunsUnlessWithdrawn, NoDup, RanBusy, Ids;
    PollStarts(w.st);
    WalkRunsScheduled(Apply(w, Poll), b);
  }

  /** The steps of the first pass of a pop entered now. */
  ghost function PopEvents(w: World): seq<Event>
    requires Inv(w.st) && Enabled(w.st, Pop)
  {
    PopStarts(w.st);
    WalkSteps(Apply(w, Pop))
  }

  ghost function PopVisits(w: World): seq<Visit>
    requires Inv(w.st) && Enabled(w.st, Pop)
  {
    PopStarts(w.st);
    WalkVisits(Apply(w, Pop))
  }

  /** async_context_pop begins with a pass over every bottom half of the context, once and in order; what
      was to run when it was called is run in it, idle or not, unless it was cancelled or deleted before
      its turn. */
  lemma PopRunsScheduled(w: World, b: Id)
    requires Inv(w.st) && Enabled(w.st, Pop)
    ensures Ids(PopVisits(w)) == Current(w.st) && NoDup(Current(w.st)) && w.done + [Pop] + PopEvents(w) <= PopAll(w).done
    ensures b in Current(w.st) && b in w.st.heap && Runnable(w.st.heap[b]) ==> RunsUnlessWithdrawn(PopVisits(w), PopEvents(w), 0, b)
  {
    hide Inv, Step, Walk, WalkVisits, Runnable, RunsUnlessWithdrawn, NoDup, RanBusy, Ids, Run, Above;
    PopStarts(w.st);
    var w' := Apply(w, Pop);
    WalkRunsScheduled(w', b);
    WalkGoes(w');
    PopDoneGrows(w');
  }

  /** The steps of a pop begin with those of its first walk. */
  lemma PopDoneGrows(w: World)
    requires Inv(w.st) && Polling(w.st) && Top(w.st).popping && !Top(w.st).ret
    ensures Walk(w).done <= PopLoop(w).done
  {
    hide Inv, Step, Walk, Goes, Weight, Waiting, Enabled;
    var w1 := Walk(w);
    EndSteps(w1.st);
    PassEnds(w, w1);
    var w2 := Apply(w1, Advance);
    assert w1.done <= w2.done;
    if Top(w1.st).ret {
      PopLoopGoes(w2);
      GoesGrows(w2, PopLoop(w2), |w2.st.frames| - 1);
    }
  }

  lemma GoesGrows(w: World, r: World, n: nat)
    requires Goes(w, r, n)
    ensures w.done <= r.done
  {}
}
