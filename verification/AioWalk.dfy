/** aio.c in place: the handler list and its two walks as loops, with callbacks that set handlers. */
module AioWalk {
  import opened Common
  import opened AioHandlers
  import opened IdLists

  lemma {:induction false} RunConcat(st: State, a: seq<Event>, b: seq<Event>)
    ensures Run(st, a + b) == Run(Run(st, a), b)
    decreases |a|
  {
    hide Step;
    if a == [] {
      assert a + b == b;
    } else {
      assert (a + b)[1..] == a[1..] + b;
      RunConcat(Step(st, a[0]), a[1..], b);
    }
  }

  lemma RunOne(st: State, ev: Event)
    ensures Run(st, [ev]) == Step(st, ev)
  {
    hide Step;
    assert [ev][1..] == [];
  }

  lemma RunNone(st: State)
    ensures Run(st, []) == st
  {}

  // ----- the walk as a function of what the callbacks do

  /** What the read and the write callback of each node in turn set; nothing beyond the end. */
  type Script = seq<(seq<Request>, seq<Request>)>

  function Answers(script: Script, k: nat): (seq<Request>, seq<Request>) {
    if k < |script| then script[k] else ([], [])
  }

  function Sets(requests: seq<Request>): seq<Event> {
    if requests == [] then [] else [Set(requests[0])] + Sets(requests[1..])
  }

  /** The callback due where the walk is. */
  function DueNow(st: State): Option<Call> {
    if st.walk.Some? && st.walk.value.cur.Some? && st.walk.value.cur.value in st.heap && st.walk.value.stage < 2
    then var w := st.walk.value; Due(st.heap[w.cur.value], w.cur.value, w.purpose, w.stage)
    else None
  }

  /** One stage: the callback runs if it is due. */
  function StageEvents(st: State, requests: seq<Request>): seq<Event> {
    [Move] + if DueNow(st).Some? then Sets(requests) else []
  }

  /** The two stages at a node and the move past it. */
  function NodeEvents(st: State, answers: (seq<Request>, seq<Request>)): seq<Event> {
    var a := StageEvents(st, answers.0);
    a + StageEvents(Run(st, a), answers.1) + [Move]
  }

  /** The whole walk, from before a node. */
  ghost function WalkEvents(st: State, script: Script): seq<Event>
    requires Inv(st) && AtNode(st, 0)
    decreases Ahead(st)
  {
    if st.walk.value.cur.None? then []
    else
      var answers := Answers(script, |st.walk.value.visited|);
      NodeKeeps(st, answers);
      NodeEvents(st, answers) + WalkEvents(Run(st, NodeEvents(st, answers)), script)
  }

  predicate AtNode(st: State, stage: nat) {
    st.walk.Some? && st.walk.value.stage == stage
  }

  /** How many nodes the walk still has to visit. */
  function Ahead(st: State): int
    requires st.walk.Some?
  {
    |st.walk.value.initial| - |st.walk.value.visited|
  }

  lemma {:induction false} SetsKeep(st: State, requests: seq<Request>)
    requires Inv(st) && st.walk.Some?
    ensures var st' := Run(st, Sets(requests)); Inv(st') && st'.walk == st.walk
    decreases |requests|
  {
    hide Inv, Step, Run;
    RunNone(st);
    if requests != [] {
      var ev := Set(requests[0]);
      StepKeepsInv(st, ev);
      SetKeepsWalk(st, requests[0]);
      SetsKeep(Step(st, ev), requests[1..]);
      RunOne(st, ev);
      RunConcat(st, [ev], Sets(requests[1..]));
    }
  }

  lemma SetKeepsWalk(st: State, q: Request)
    ensures Step(st, Set(q)).walk == st.walk
  {
    hide Find, Without;
  }

  /** One stage at a node leaves the walk where it is, with the callback that was due recorded. */
  lemma StageKeeps(st: State, requests: seq<Request>)
    requires Inv(st) && st.walk.Some? && st.walk.value.cur.Some? && st.walk.value.stage < 2
    ensures
      var st' := Run(st, StageEvents(st, requests));
      var w := st.walk.value;
      && Inv(st')
      && st'.walk == Some(w.(stage := w.stage + 1, calls := WithCall(w.calls, DueNow(st))))
  {
    hide Inv, Run, Due;
    CurAllocated(st);
    StepKeepsInv(st, Move);
    RunOne(st, Move);
    var st1 := Step(st, Move);
    SetsKeep(st1, requests);
    RunConcat(st, [Move], Sets(requests));
    assert [Move] + [] == [Move];
  }

  /** What calling at a node adds to the calls of the walk. */
  function NodeCalls(st: State, answers: (seq<Request>, seq<Request>)): seq<Call> {
    WithCall(WithCall([], DueNow(st)), DueNow(Run(st, StageEvents(st, answers.0))))
  }

  lemma NodeKeeps(st: State, answers: (seq<Request>, seq<Request>))
    requires Inv(st) && AtNode(st, 0) && st.walk.value.cur.Some?
    ensures
      var st' := Run(st, NodeEvents(st, answers));
      var w := st.walk.value;
      && Inv(st') && AtNode(st', 0)
      && st'.walk.value.visited == w.visited + [w.cur.value] && st'.walk.value.initial == w.initial
      && st'.walk.value.purpose == w.purpose && st'.walk.value.calls == w.calls + NodeCalls(st, answers)
      && Ahead(st') < Ahead(st) && Ahead(st) > 0
  {
    hide Inv, Run, Step, DueNow, StageEvents;
    var a := StageEvents(st, answers.0);
    StageKeeps(st, answers.0);
    var st1 := Run(st, a);
    var b := StageEvents(st1, answers.1);
    StageKeeps(st1, answers.1);
    RunConcat(st, a, b);
    var st2 := Run(st, a + b);
    StepKeepsInv(st2, Move);
    LeaveKeeps(st2);
    RunOne(st2, Move);
    RunConcat(st, a + b, [Move]);
    CallsAppend(st.walk.value.calls, DueNow(st), DueNow(st1));
    WalkBound(st);
  }

  lemma LeaveKeeps(st: State)
    requires Inv(st) && AtNode(st, 2) && st.walk.value.cur.Some?
    ensures
      var w := st.walk.value;
      Step(st, Move).walk == Some(w.(cur := After(st.list, w.cur.value), stage := 0, visited := w.visited + [w.cur.value]))
  {
    hide Inv, After, Without;
    CurAllocated(st);
  }

  lemma CallsAppend(calls: seq<Call>, a: Option<Call>, b: Option<Call>)
    ensures WithCall(WithCall(calls, a), b) == calls + WithCall(WithCall([], a), b)
  {}

  /** The callbacks the rest of the walk makes. */
  ghost function WalkCalls(st: State, script: Script): seq<Call>
    requires Inv(st) && AtNode(st, 0)
    decreases Ahead(st)
  {
    if st.walk.value.cur.None? then []
    else
      var answers := Answers(script, |st.walk.value.visited|);
      NodeKeeps(st, answers);
      NodeCalls(st, answers) + WalkCalls(Run(st, NodeEvents(st, answers)), script)
  }

  /** Only handlers are set, or the walk moves. */
  ghost predicate NoStart(evs: seq<Event>) {
    forall i :: 0 <= i < |evs| ==> !evs[i].Start?
  }

  lemma {:induction false} SetsNoStart(requests: seq<Request>)
    ensures NoStart(Sets(requests))
  {
    if requests != [] {
      SetsNoStart(requests[1..]);
    }
  }

  lemma NodeNoStart(st: State, answers: (seq<Request>, seq<Request>))
    ensures NoStart(NodeEvents(st, answers))
  {
    hide Run, DueNow, Sets;
    SetsNoStart(answers.0);
    SetsNoStart(answers.1);
  }

  /** The walk comes to its end having visited every node of the list it started with, in order, and
      having made these calls. */
  lemma {:induction false} WalkFinishes(st: State, script: Script)
    requires Inv(st) && AtNode(st, 0)
    ensures
      var evs := WalkEvents(st, script);
      var st' := Run(st, evs);
      && Inv(st') && AtNode(st', 0) && st'.walk.value.cur == None && NoStart(evs)
      && st'.walk.value.visited == st'.walk.value.initial == st.walk.value.initial
      && st'.walk.value.calls == st.walk.value.calls + WalkCalls(st, script)
    decreases Ahead(st)
  {
    hide Inv, Run, NodeEvents, NodeCalls;
    if st.walk.value.cur.None? {
      RunNone(st);
      WalkBound(st);
      assert st.walk.value.calls + [] == st.walk.value.calls;
    } else {
      var answers := Answers(script, |st.walk.value.visited|);
      var evs := NodeEvents(st, answers);
      NodeKeeps(st, answers);
      NodeNoStart(st, answers);
      var st' := Run(st, evs);
      WalkFinishes(st', script);
      RunConcat(st, evs, WalkEvents(st', script));
      assert (st.walk.value.calls + NodeCalls(st, answers)) + WalkCalls(st', script)
          == st.walk.value.calls + (NodeCalls(st, answers) + WalkCalls(st', script));
    }
  }

  // ----- what is called

  function Target(c: Call): Id {
    c.id
  }

  lemma NodeCallsAt(st: State, answers: (seq<Request>, seq<Request>))
    requires Inv(st) && AtNode(st, 0) && st.walk.value.cur.Some?
    ensures
      var calls := NodeCalls(st, answers);
      && |calls| <= 2 && (forall i :: 0 <= i < |calls| ==> Target(calls[i]) == st.walk.value.cur.value)
      && (|calls| == 2 ==> calls[0] != calls[1])
  {
    hide Inv, Run, StageEvents;
    StageKeeps(st, answers.0);
  }

  ghost predicate DistinctCalls(calls: seq<Call>) {
    forall i, j :: 0 <= i < j < |calls| ==> calls[i] != calls[j]
  }

  lemma AheadSplits(st: State, answers: (seq<Request>, seq<Request>))
    requires Inv(st) && AtNode(st, 0) && st.walk.value.cur.Some?
    ensures
      var st' := Run(st, NodeEvents(st, answers));
      var b := st.walk.value.cur.value;
      && Inv(st') && AtNode(st', 0)
      && From(st.list, st.walk.value.cur) == [b] + From(st'.list, st'.walk.value.cur)
  {
    hide Run, NodeEvents, Shape, From;
    NodeKeeps(st, answers);
    var st' := Run(st, NodeEvents(st, answers));
    var w, w' := st.walk.value, st'.walk.value;
    var b := w.cur.value;
    assert w.visited + From(st.list, w.cur) == (w.visited + [b]) + From(st'.list, w'.cur);
    assert From(st.list, w.cur) == w.initial[|w.visited|..];
    assert [b] + From(st'.list, w'.cur) == w.initial[|w.visited|..];
  }

  /** No callback is called twice, and only nodes that were in the list when the walk began are called. */
  lemma {:induction false} CallsOnce(st: State, script: Script)
    requires Inv(st) && AtNode(st, 0)
    ensures
      var calls := WalkCalls(st, script);
      && DistinctCalls(calls)
      && forall i :: 0 <= i < |calls| ==> Target(calls[i]) in From(st.list, st.walk.value.cur)
    decreases Ahead(st)
  {
    hide Run, NodeEvents, NodeCalls, Shape, From, Target;
    if st.walk.value.cur.Some? {
      var b := st.walk.value.cur.value;
      var answers := Answers(script, |st.walk.value.visited|);
      NodeKeeps(st, answers);
      NodeCallsAt(st, answers);
      AheadSplits(st, answers);
      var st' := Run(st, NodeEvents(st, answers));
      CallsOnce(st', script);
      assert NoDup(From(st.list, st.walk.value.cur)) by {
        assert NoDup(st.list) by { ListDistinct(st); }
        FromDistinct(st.list, st.walk.value.cur);
      }
      var ahead, calls, more := From(st'.list, st'.walk.value.cur), NodeCalls(st, answers), WalkCalls(st', script);
      assert b !in ahead by { NoDupTail([b] + ahead); }
      assert forall i :: 0 <= i < |calls| + |more| ==> (calls + more)[i] == if i < |calls| then calls[i] else more[i - |calls|];
    }
  }

  lemma ListDistinct(st: State)
    requires Inv(st)
    ensures NoDup(st.list)
  {}

  // ----- who is called

  /** No callback sets a handler for the descriptor. */
  predicate Untouched(script: Script, fd: int) {
    forall k :: 0 <= k < |script| ==> NotFor(script[k].0, fd) && NotFor(script[k].1, fd)
  }

  predicate NotFor(requests: seq<Request>, fd: int) {
    forall i :: 0 <= i < |requests| ==> requests[i].fd != fd
  }

  lemma {:induction false} SetsSpare(st: State, requests: seq<Request>, b: Id)
    requires Inv(st) && st.walk.Some? && b in st.heap && NotFor(requests, st.heap[b].fd)
    ensures var st' := Run(st, Sets(requests)); b in st'.heap && st'.heap[b] == st.heap[b]
    decreases |requests|
  {
    hide Inv, Step, Run;
    RunNone(st);
    if requests != [] {
      var ev := Set(requests[0]);
      StepKeepsInv(st, ev);
      SetKeepsWalk(st, requests[0]);
      SetSpares(st, requests[0], b);
      SetsSpare(Step(st, ev), requests[1..], b);
      RunOne(st, ev);
      RunConcat(st, [ev], Sets(requests[1..]));
    }
  }

  lemma SetSpares(st: State, q: Request, b: Id)
    requires Inv(st) && st.walk.Some? && b in st.heap && q.fd != st.heap[b].fd
    ensures var st' := Step(st, Set(q)); b in st'.heap && st'.heap[b] == st.heap[b]
  {
    hide NoDup, Find, Without;
  }

  lemma StageSpares(st: State, requests: seq<Request>, b: Id)
    requires Inv(st) && st.walk.Some? && st.walk.value.cur.Some? && st.walk.value.stage < 2
    requires b in st.heap && NotFor(requests, st.heap[b].fd)
    ensures var st' := Run(st, StageEvents(st, requests)); b in st'.heap && st'.heap[b] == st.heap[b]
  {
    hide Inv, Run, Due;
    CurAllocated(st);
    StepKeepsInv(st, Move);
    RunOne(st, Move);
    SetsSpare(Step(st, Move), requests, b);
    RunConcat(st, [Move], Sets(requests));
    assert [Move] + [] == [Move];
  }

  /** Until the walk gets past it, the node of an untouched descriptor stays as it is. */
  lemma NodeSpares(st: State, answers: (seq<Request>, seq<Request>), b: Id)
    requires Inv(st) && AtNode(st, 0) && st.walk.value.cur.Some? && b in st.heap
    requires NotFor(answers.0, st.heap[b].fd) && NotFor(answers.1, st.heap[b].fd)
    ensures var st1 := Run(st, StageEvents(st, answers.0)); b in st1.heap && st1.heap[b] == st.heap[b]
    ensures st.walk.value.cur.value != b ==>
              var st' := Run(st, NodeEvents(st, answers)); b in st'.heap && st'.heap[b] == st.heap[b]
  {
    hide Inv, Run, Step, StageEvents, DueNow, NotFor;
    var a := StageEvents(st, answers.0);
    StageKeeps(st, answers.0);
    StageSpares(st, answers.0, b);
    var st1 := Run(st, a);
    var c := StageEvents(st1, answers.1);
    StageKeeps(st1, answers.1);
    StageSpares(st1, answers.1, b);
    RunConcat(st, a, c);
    var st2 := Run(st, a + c);
    if st.walk.value.cur.value != b {
      MoveSpares(st2, b);
      RunOne(st2, Move);
      RunConcat(st, a + c, [Move]);
    }
  }

  lemma MoveSpares(st: State, b: Id)
    requires Inv(st) && AtNode(st, 2) && st.walk.value.cur.Some? && b in st.heap && st.walk.value.cur.value != b
    ensures var st' := Step(st, Move); b in st'.heap && st'.heap[b] == st.heap[b]
  {
    hide Inv, After, Without;
  }

  /** What a walk calls at a node it leaves unchanged. */
  function CallsFor(n: Node, b: Id, purpose: Purpose): seq<Call> {
    WithCall(WithCall([], Due(n, b, purpose, 0)), Due(n, b, purpose, 1))
  }

  lemma NodeCallsFor(st: State, answers: (seq<Request>, seq<Request>))
    requires Inv(st) && AtNode(st, 0) && st.walk.value.cur.Some? && st.walk.value.cur.value in st.heap
    requires var fd := st.heap[st.walk.value.cur.value].fd; NotFor(answers.0, fd) && NotFor(answers.1, fd)
    ensures var b := st.walk.value.cur.value; NodeCalls(st, answers) == CallsFor(st.heap[b], b, st.walk.value.purpose)
  {
    hide Inv, Run, StageEvents, Due, NotFor;
    StageKeeps(st, answers.0);
    NodeSpares(st, answers, st.walk.value.cur.value);
  }

  /** A node ahead whose descriptor no callback touches is called exactly as it stands: its read callback
      when it is readable, its write callback when it is writable, its queue when it has one, unless it
      is deleted. */
  lemma {:induction false} UntouchedIsCalled(st: State, script: Script, b: Id, c: Call)
    requires Inv(st) && AtNode(st, 0) && b in From(st.list, st.walk.value.cur) && Target(c) == b
    requires b in st.heap && Untouched(script, st.heap[b].fd)
    ensures c in WalkCalls(st, script) <==> c in CallsFor(st.heap[b], b, st.walk.value.purpose)
    decreases Ahead(st)
  {
    hide Run, NodeEvents, NodeCalls, Shape, From, Target, CallsFor, NotFor;
    var w := st.walk.value;
    if w.cur.None? {
      FromNone(st.list);
      assert false;
    }
    var answers := Answers(script, |w.visited|);
    NodeKeeps(st, answers);
    NodeCallsAt(st, answers);
    AheadSplits(st, answers);
    var st' := Run(st, NodeEvents(st, answers));
    assert NotFor(answers.0, st.heap[b].fd) && NotFor(answers.1, st.heap[b].fd) by {
      AnswersUntouched(script, |w.visited|, st.heap[b].fd);
    }
    if w.cur.value == b {
      NodeCallsFor(st, answers);
      CallsOnce(st', script);
      assert NoDup(From(st.list, w.cur)) by {
        assert NoDup(st.list) by { ListDistinct(st); }
        FromDistinct(st.list, w.cur);
      }
      NoDupTail([b] + From(st'.list, st'.walk.value.cur));
    } else {
      NodeSpares(st, answers, b);
      UntouchedIsCalled(st', script, b, c);
    }
  }

  lemma AnswersUntouched(script: Script, k: nat, fd: int)
    requires Untouched(script, fd)
    ensures NotFor(Answers(script, k).0, fd) && NotFor(Answers(script, k).1, fd)
  {}

  // ----- queue walks and deletion

  /** The callbacks at most delete the handler of the descriptor. */
  predicate OnlyDeletes(script: Script, fd: int) {
    forall k :: 0 <= k < |script| ==> DeletesOnly(script[k].0, fd) && DeletesOnly(script[k].1, fd)
  }

  predicate DeletesOnly(requests: seq<Request>, fd: int) {
    forall i :: 0 <= i < |requests| && requests[i].fd == fd ==> !requests[i].read && !requests[i].write
  }

  /** The node is still there, with its descriptor and its queue callback, deleted or not. */
  predicate KeepsQueue(st: State, st': State, b: Id) {
    b in st.heap && b in st'.heap && st'.heap[b].fd == st.heap[b].fd && st'.heap[b].hasQueue == st.heap[b].hasQueue
  }

  lemma SetKeepsQueue(st: State, q: Request, b: Id)
    requires Inv(st) && st.walk.Some? && b in st.heap && (q.fd == st.heap[b].fd ==> !q.read && !q.write)
    ensures KeepsQueue(st, Step(st, Set(q)), b)
  {
    hide NoDup, Find, Without;
  }

  lemma {:induction false} SetsKeepQueue(st: State, requests: seq<Request>, b: Id)
    requires Inv(st) && st.walk.Some? && b in st.heap && DeletesOnly(requests, st.heap[b].fd)
    ensures KeepsQueue(st, Run(st, Sets(requests)), b)
    decreases |requests|
  {
    hide Inv, Step, Run;
    RunNone(st);
    if requests != [] {
      var ev := Set(requests[0]);
      StepKeepsInv(st, ev);
      SetKeepsWalk(st, requests[0]);
      SetKeepsQueue(st, requests[0], b);
      SetsKeepQueue(Step(st, ev), requests[1..], b);
      RunOne(st, ev);
      RunConcat(st, [ev], Sets(requests[1..]));
    }
  }

  lemma StageKeepsQueue(st: State, requests: seq<Request>, b: Id)
    requires Inv(st) && st.walk.Some? && st.walk.value.cur.Some? && st.walk.value.stage < 2
    requires b in st.heap && DeletesOnly(requests, st.heap[b].fd)
    ensures KeepsQueue(st, Run(st, StageEvents(st, requests)), b)
  {
    hide Inv, Run, Due;
    CurAllocated(st);
    StepKeepsInv(st, Move);
    RunOne(st, Move);
    SetsKeepQueue(Step(st, Move), requests, b);
    RunConcat(st, [Move], Sets(requests));
    assert [Move] + [] == [Move];
  }

  lemma QueueMoveKeeps(st: State, b: Id)
    requires Inv(st) && AtNode(st, 2) && st.walk.value.cur.Some? && st.walk.value.purpose.Queues? && b in st.heap
    ensures KeepsQueue(st, Step(st, Move), b)
  {
    hide Inv, After, Without;
  }

  lemma NodeKeepsQueue(st: State, answers: (seq<Request>, seq<Request>), b: Id)
    requires Inv(st) && AtNode(st, 0) && st.walk.value.cur.Some? && st.walk.value.purpose.Queues? && b in st.heap
    requires DeletesOnly(answers.0, st.heap[b].fd) && DeletesOnly(answers.1, st.heap[b].fd)
    ensures KeepsQueue(st, Run(st, NodeEvents(st, answers)), b)
  {
    hide Inv, Run, Step, StageEvents, DueNow, DeletesOnly;
    var a := StageEvents(st, answers.0);
    StageKeeps(st, answers.0);
    StageKeepsQueue(st, answers.0, b);
    var st1 := Run(st, a);
    var c := StageEvents(st1, answers.1);
    StageKeeps(st1, answers.1);
    StageKeepsQueue(st1, answers.1, b);
    RunConcat(st, a, c);
    var st2 := Run(st, a + c);
    QueueMoveKeeps(st2, b);
    RunOne(st2, Move);
    RunConcat(st, a + c, [Move]);
  }

  /** A queue walk calls the queue of the node it is at exactly when there is one. */
  lemma QueueNodeCalls(st: State, answers: (seq<Request>, seq<Request>))
    requires Inv(st) && AtNode(st, 0) && st.walk.value.cur.Some? && st.walk.value.purpose.Queues?
    ensures
      var b := st.walk.value.cur.value;
      b in st.heap && NodeCalls(st, answers) == if st.heap[b].hasQueue then [QueueCall(b)] else []
  {
    hide Inv, Run, StageEvents;
    CurAllocated(st);
    StageKeeps(st, answers.0);
  }

  /** A queue walk does not look at the deleted mark: whatever is deleted before or during it, the queue
      callback of a node ahead is called exactly when the node has one. */
  lemma {:induction false} QueueCalledEvenIfDeleted(st: State, script: Script, b: Id)
    requires Inv(st) && AtNode(st, 0) && st.walk.value.purpose.Queues? && b in From(st.list, st.walk.value.cur)
    requires b in st.heap && OnlyDeletes(script, st.heap[b].fd)
    ensures QueueCall(b) in WalkCalls(st, script) <==> st.heap[b].hasQueue
    decreases Ahead(st)
  {
    hide Run, NodeEvents, NodeCalls, Shape, From, DeletesOnly;
    var w := st.walk.value;
    if w.cur.None? {
      FromNone(st.list);
      assert false;
    }
    var answers := Answers(script, |w.visited|);
    NodeKeeps(st, answers);
    QueueNodeCalls(st, answers);
    AheadSplits(st, answers);
    var st' := Run(st, NodeEvents(st, answers));
    if w.cur.value == b {
      CallsOnce(st', script);
      assert NoDup(From(st.list, w.cur)) by {
        assert NoDup(st.list) by { ListDistinct(st); }
        FromDistinct(st.list, w.cur);
      }
      NoDupTail([b] + From(st'.list, st'.walk.value.cur));
      assert Target(QueueCall(b)) == b;
    } else {
      assert DeletesOnly(answers.0, st.heap[b].fd) && DeletesOnly(answers.1, st.heap[b].fd) by {
        AnswersDelete(script, |w.visited|, st.heap[b].fd);
      }
      NodeKeepsQueue(st, answers, b);
      QueueCalledEvenIfDeleted(st', script, b);
    }
  }

  lemma AnswersDelete(script: Script, k: nat, fd: int)
    requires OnlyDeletes(script, fd)
    ensures DeletesOnly(Answers(script, k).0, fd) && DeletesOnly(Answers(script, k).1, fd)
  {}

  const NO_HANDLERS := State(map[], 0, [], None, false, false)

  /** Two handlers with queues, the second set first in the list. */
  const TWO_HANDLERS := State(
    map[0 := Node(5, true, false, true, false), 1 := Node(6, true, false, true, false)], 2, [1, 0], None, false, false)

  lemma TwoSet()
    ensures Run(NO_HANDLERS, [Set(Request(5, true, false, true)), Set(Request(6, true, false, true))]) == TWO_HANDLERS
  {
    hide Run;
    var a, b := Set(Request(5, true, false, true)), Set(Request(6, true, false, true));
    var none: seq<Id>, one: seq<Id> := [], [0];
    assert [0] + none == one && [1] + one == [1, 0];
    var s1 := State(map[0 := Node(5, true, false, true, false)], 1, [0], None, false, false);
    assert Step(NO_HANDLERS, a) == s1;
    assert [a, b] == [a] + [b];
    RunConcat(NO_HANDLERS, [a], [b]);
    RunOne(NO_HANDLERS, a);
    RunOne(s1, b);
    assert Find(s1.heap, [0], 6) == None;
  }

  /** The first queue callback deletes the other handler, whose queue callback the walk then calls all the
      same. */
  lemma DeletedQueueRun()
    ensures Run(NO_HANDLERS, [Set(Request(5, true, false, true)), Set(Request(6, true, false, true))]) == TWO_HANDLERS
    ensures Inv(Begin(TWO_HANDLERS, Queues))
    ensures
      var st, script := Begin(TWO_HANDLERS, Queues), [([Request(5, false, false, false)], [])];
      var st' := Run(st, NodeEvents(st, script[0]));
      && st'.walk.Some? && st'.walk.value.cur == Some(0) && 0 in st'.heap && st'.heap[0].deleted
      && QueueCall(0) in WalkCalls(st, script)
  {
    hide Run, NodeEvents, WalkCalls, Inv;
    var st, script: Script := Begin(TWO_HANDLERS, Queues), [([Request(5, false, false, false)], [])];
    TwoSet();
    assert Inv(st) by { TwoInv(); }
    assert From([1, 0], Some(1)) == [1, 0];
    assert 0 in From(st.list, st.walk.value.cur);
    QueueCalledEvenIfDeleted(st, script, 0);
    FirstDeletes();
  }

  lemma TwoInv()
    ensures Inv(Begin(TWO_HANDLERS, Queues))
  {
    hide Inv, Run;
    assert Inv(NO_HANDLERS) by { NoneInv(); }
    TwoSet();
    RunKeepsInv(NO_HANDLERS, [Set(Request(5, true, false, true)), Set(Request(6, true, false, true))]);
    StepKeepsInv(TWO_HANDLERS, Start(Queues));
  }

  lemma NoneInv()
    ensures Inv(NO_HANDLERS)
  {}

  lemma FirstDeletes()
    ensures
      var st := Begin(TWO_HANDLERS, Queues);
      var st' := Run(st, NodeEvents(st, ([Request(5, false, false, false)], [])));
      st'.walk.Some? && st'.walk.value.cur == Some(0) && 0 in st'.heap && st'.heap[0].deleted
  {
    hide Run, Find;
    var st, q := Begin(TWO_HANDLERS, Queues), Request(5, false, false, false);
    var w := st.walk.value;
    var s1 := st.(walk := Some(w.(stage := 1, calls := [QueueCall(1)])));
    var none: seq<Call> := [];
    assert none + [QueueCall(1)] == [QueueCall(1)];
    assert Step(st, Move) == s1;
    var s2 := s1.(heap := s1.heap[0 := s1.heap[0].(deleted := true)]);
    assert Step(s1, Set(q)) == s2 by { FindsZero(s1); }
    var s3 := s2.(walk := Some(s2.walk.value.(stage := 2)));
    assert Step(s2, Move) == s3;
    assert Sets([q]) == [Set(q)] + Sets([]) && Sets([]) == [];
    assert StageEvents(st, [q]) == [Move] + [Set(q)];
    RunConcat(st, [Move], [Set(q)]);
    RunOne(st, Move);
    RunOne(s1, Set(q));
    assert StageEvents(s2, []) == [Move] + [] == [Move];
    RunOne(s2, Move);
    RunConcat(st, [Move] + [Set(q)], [Move]);
    RunConcat(st, [Move] + [Set(q)] + [Move], [Move]);
    RunOne(s3, Move);
    assert After([1, 0], 1) == First([1, 0][1..]) && [1, 0][1..] == [0];
  }

  lemma FindsZero(st: State)
    requires st.list == [1, 0] && st.heap == TWO_HANDLERS.heap
    ensures Find(st.heap, st.list, 5) == Some(0)
  {
    assert [1, 0][1..] == [0];
    assert Find(st.heap, [0], 5) == Some(0);
  }

  class Aio {
    var heap: map<Id, Node>
    var unused: Id
    var list: seq<Id>
    var walk: Option<Walk>

    ghost function Abstract(): State
      reads this
    {
      State(heap, unused, list, walk, false, false)
    }

    constructor ()
      ensures Inv(Abstract()) && list == [] && walk == None
    {
      heap, unused, list, walk := map[], 0, [], None;
    }

    /** find_aio_handler */
    method FindHandler(fd: int) returns (r: Option<Id>)
      ensures r == Find(heap, list, fd)
    {
      hide Live;
      for i := 0 to |list|
        invariant Find(heap, list, fd) == Find(heap, list[i..], fd)
      {
        assert list[i..][0] == list[i] && list[i..][1..] == list[i + 1..];
        if Live(heap, list[i], fd) {
          return Some(list[i]);
        }
      }
      return None;
    }

    /** qemu_aio_set_fd_handler */
    method SetFdHandler(q: Request)
      requires Inv(Abstract())
      modifies this`heap, this`unused, this`list
      ensures Inv(Abstract()) && Abstract() == SetHandler(old(Abstract()), q)
    {
      hide Inv, Find, Without;
      SetKeepsInv(Abstract(), q);
      var node := FindHandler(q.fd);
      if !q.read && !q.write {
        if node.Some? {
          var b := node.value;
          if walk.Some? {
            heap := heap[b := heap[b].(deleted := true)];
          } else {
            list := Without(list, b);
            heap := map x | x in heap && x != b :: heap[x];
          }
        }
      } else if node.None? {
        list := [unused] + list;
        heap := heap[unused := Node(q.fd, q.read, q.write, q.queue, false)];
        unused := unused + 1;
      } else {
        heap := heap[node.value := Node(q.fd, q.read, q.write, q.queue, false)];
      }
    }

    /** A callback: any calls of qemu_aio_set_fd_handler. */
    method Callback(requests: seq<Request>)
      requires Inv(Abstract())
      modifies this`heap, this`unused, this`list
      ensures Inv(Abstract()) && Abstract() == Run(old(Abstract()), Sets(requests))
    {
      hide Inv, Run, SetHandler;
      RunNone(Abstract());
      assert requests[0..] == requests;
      for i := 0 to |requests|
        invariant Inv(Abstract()) && Run(old(Abstract()), Sets(requests)) == Run(Abstract(), Sets(requests[i..]))
      {
        ghost var st := Abstract();
        SetFdHandler(requests[i]);
        assert requests[i..][1..] == requests[i + 1..];
        RunOne(st, Set(requests[i]));
        RunConcat(st, [Set(requests[i])], Sets(requests[i + 1..]));
      }
      assert requests[|requests|..] == [];
      RunNone(Abstract());
    }

    /** One stage at a node: the callback that is due, if any, sets the handlers given. */
    method CallIfDue(requests: seq<Request>)
      requires Inv(Abstract()) && walk.Some? && walk.value.cur.Some? && walk.value.stage < 2
      modifies this`heap, this`unused, this`list, this`walk
      ensures Inv(Abstract()) && Abstract() == Run(old(Abstract()), StageEvents(old(Abstract()), requests))
      ensures var w := old(walk.value); walk == Some(w.(stage := w.stage + 1, calls := WithCall(w.calls, DueNow(old(Abstract())))))
    {
      hide Inv, Run, Due;
      ghost var st := Abstract();
      StageKeeps(st, requests);
      AdvanceKeepsInv(st);
      CurAllocated(st);
      var w := walk.value;
      var due := Due(heap[w.cur.value], w.cur.value, w.purpose, w.stage);
      walk := Some(w.(stage := w.stage + 1, calls := WithCall(w.calls, due)));
      assert Abstract() == Advance(st) by { DueIsLive(st); }
      RunOne(st, Move);
      assert [Move] + [] == [Move];
      if due.Some? {
        Callback(requests);
        RunConcat(st, [Move], Sets(requests));
      }
    }

    /** The node is left behind, and freed if a dispatch walk finds it deleted. */
    method LeaveNode()
      requires Inv(Abstract()) && walk.Some? && walk.value.cur.Some? && walk.value.stage == 2
      modifies this`heap, this`list, this`walk
      ensures Inv(Abstract()) && Abstract() == Run(old(Abstract()), [Move])
      ensures walk.Some? && walk.value.stage == 0 && walk.value.visited == old(walk.value.visited) + [old(walk.value.cur.value)]
      ensures walk.value.initial == old(walk.value.initial) && walk.value.purpose == old(walk.value.purpose)
    {
      hide Inv, Run, After, Without;
      ghost var st := Abstract();
      AdvanceKeepsInv(st);
      CurAllocated(st);
      var w := walk.value;
      var tmp := w.cur.value;
      walk := Some(w.(cur := After(list, tmp), stage := 0, visited := w.visited + [tmp]));
      if w.purpose.Dispatch? && heap[tmp].deleted {
        list := Without(list, tmp);
        heap := map x | x in heap && x != tmp :: heap[x];
      }
      RunOne(st, Move);
    }

    /** Both stages at a node and the move past it. */
    method VisitNode(answers: (seq<Request>, seq<Request>))
      requires Inv(Abstract()) && walk.Some? && walk.value.cur.Some? && walk.value.stage == 0
      modifies this`heap, this`unused, this`list, this`walk
      ensures Inv(Abstract()) && Abstract() == Run(old(Abstract()), NodeEvents(old(Abstract()), answers))
    {
      hide Inv, Run, Step, StageEvents, DueNow;
      ghost var st := Abstract();
      ghost var a := StageEvents(st, answers.0);
      CallIfDue(answers.0);
      ghost var b := StageEvents(Abstract(), answers.1);
      CallIfDue(answers.1);
      RunConcat(st, a, b);
      LeaveNode();
      RunConcat(st, a + b, [Move]);
    }

    /** The dispatch walk of qemu_aio_wait, and the walk of qemu_aio_process_queue.  The k-th node visited
        gets the k-th pair of callback behaviours.  Every node that was in the list is visited once, in
        order, whatever the callbacks do; the result is the callbacks called, none of them twice. */
    method WalkHandlers(purpose: Purpose, script: Script) returns (calls: seq<Call>)
      requires Inv(Abstract()) && walk == None
      modifies this
      ensures Inv(Abstract()) && walk == None && Inv(Begin(old(Abstract()), purpose))
      ensures var st := Begin(old(Abstract()), purpose);
              var st' := Run(st, WalkEvents(st, script));
              && Abstract() == st'.(walk := None)
              && AtNode(st', 0) && st'.walk.value.cur == None && st'.walk.value.visited == old(list)
              && calls == st'.walk.value.calls == WalkCalls(st, script)
      ensures DistinctCalls(calls) && forall i :: 0 <= i < |calls| ==> Target(calls[i]) in old(list)
    {
      hide Inv, Run, Step, Advance, WalkEvents, WalkCalls, NodeEvents;
      ghost var st0 := Abstract();
      StepKeepsInv(st0, Start(purpose));
      walk := Some(Walk(purpose, if list == [] then None else Some(list[0]), 0, list, [], []));
      assert Abstract() == Step(st0, Start(purpose)) by { StartIs(st0, purpose); }
      ghost var st := Abstract();
      StartIs(st0, purpose);
      WalkFinishes(st, script);
      CallsOnce(st, script);
      FromFirst(st.list);
      assert [] + WalkCalls(st, script) == WalkCalls(st, script);
      while walk.value.cur.Some?
        invariant Inv(Abstract()) && walk.Some? && walk.value.stage == 0
        invariant Run(st, WalkEvents(st, script)) == Run(Abstract(), WalkEvents(Abstract(), script))
        decreases Ahead(Abstract())
      {
        ghost var now := Abstract();
        var answers := Answers(script, |walk.value.visited|);
        NodeKeeps(now, answers);
        VisitNode(answers);
        WalkUnfolds(now, script);
        RunConcat(now, NodeEvents(now, answers), WalkEvents(Abstract(), script));
      }
      WalkUnfolds(Abstract(), script);
      RunNone(Abstract());
      calls := walk.value.calls;
      ghost var last := Abstract();
      StepKeepsInv(last, Move);
      walk := None;
      assert Abstract() == Step(last, Move) by { EndIs(last); }
    }
  }

  lemma WalkUnfolds(st: State, script: Script)
    requires Inv(st) && AtNode(st, 0)
    ensures
      if st.walk.value.cur.None? then WalkEvents(st, script) == []
      else
        var evs := NodeEvents(st, Answers(script, |st.walk.value.visited|));
        && Inv(Run(st, evs)) && AtNode(Run(st, evs), 0)
        && WalkEvents(st, script) == evs + WalkEvents(Run(st, evs), script)
  {
    hide Inv, Run, NodeEvents;
    if st.walk.value.cur.Some? {
      NodeKeeps(st, Answers(script, |st.walk.value.visited|));
    }
  }

  /** A walk has visited no more than there was, and all of it at the end. */
  lemma WalkBound(st: State)
    requires Inv(st) && st.walk.Some?
    ensures
      var w := st.walk.value;
      |w.visited| <= |w.initial| && (w.cur.Some? ==> |w.visited| < |w.initial|) && (w.cur.None? ==> w.visited == w.initial)
  {
    hide Shape;
    var w := st.walk.value;
    FromNone(st.list);
    assert w.visited + [] == w.visited;
    if w.cur.Some? {
      AheadOf(st.list, w.cur.value);
    }
  }

  lemma CurAllocated(st: State)
    requires Inv(st) && st.walk.Some? && st.walk.value.cur.Some?
    ensures st.walk.value.cur.value in st.heap
  {}

  lemma DueIsLive(st: State)
    requires Inv(st) && st.walk.Some? && st.walk.value.cur.Some?
    ensures
      var b := st.walk.value.cur.value;
      b in st.heap && (st.walk.value.purpose.Dispatch? && Due(st.heap[b], b, st.walk.value.purpose, st.walk.value.stage).Some? ==> !st.heap[b].deleted)
  {}

  lemma StartIs(st: State, purpose: Purpose)
    requires st.walk.None?
    ensures Step(st, Start(purpose)) == st.(walk := Some(Walk(purpose, if st.list == [] then None else Some(st.list[0]), 0, st.list, [], [])))
  {}

  lemma EndIs(st: State)
    requires st.walk.Some? && st.walk.value.cur.None?
    ensures Step(st, Move) == st.(walk := None)
  {}
}
