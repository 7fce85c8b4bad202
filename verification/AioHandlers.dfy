/** The list of AIO file handlers, walked while the callbacks it calls add and delete handlers.  Deletion
    is deferred while a walk is under way: nodes are only marked, and the dispatch walk frees a marked
    node when it moves past it. */
module AioHandlers {
  import opened Common
  import opened IdLists

  /** AioHandler; the callbacks are present or not. */
  datatype Node = Node(fd: int, canRead: bool, canWrite: bool, hasQueue: bool, deleted: bool)

  /** What a walk is for: dispatching ready descriptors, or processing queued completions. */
  datatype Purpose = Dispatch(readable: set<int>, writable: set<int>) | Queues

  datatype Call = ReadCall(id: Id) | WriteCall(id: Id) | QueueCall(id: Id)

  /** A walk at node `cur`: `stage` 0 before the read callback, 1 before the write callback, 2 before
      moving on.  `initial` is the list when the walk began, `visited` the nodes moved past. */
  datatype Walk = Walk(purpose: Purpose, cur: Option<Id>, stage: nat, initial: seq<Id>, visited: seq<Id>, calls: seq<Call>)

  /** `touchedFreed` and `calledDeleted` record a walk at a freed node, and a dispatch walk that called
      a deleted handler. */
  datatype State = State(
    heap: map<Id, Node>,
    unused: Id,
    list: seq<Id>,
    walk: Option<Walk>,
    touchedFreed: bool,
    calledDeleted: bool)

  predicate Live(heap: map<Id, Node>, b: Id, fd: int) {
    b in heap && heap[b].fd == fd && !heap[b].deleted
  }

  /** find_aio_handler */
  function Find(heap: map<Id, Node>, list: seq<Id>, fd: int): (r: Option<Id>)
    ensures r.Some? ==> r.value in list && Live(heap, r.value, fd)
    ensures r.None? ==> forall b :: b in list ==> !Live(heap, b, fd)
  {
    if list == [] then None
    else if Live(heap, list[0], fd) then Some(list[0])
    else Find(heap, list[1..], fd)
  }

  function Without(list: seq<Id>, b: Id): (r: seq<Id>)
    ensures forall x :: x in r <==> x in list && x != b
  {
    if list == [] then [] else (if list[0] == b then [] else [list[0]]) + Without(list[1..], b)
  }

  function Unlinked(st: State, b: Id): State {
    st.(heap := map x | x in st.heap && x != b :: st.heap[x], list := Without(st.list, b))
  }

  /** A call of qemu_aio_set_fd_handler: which callbacks are given. */
  datatype Request = Request(fd: int, read: bool, write: bool, queue: bool)

  /** qemu_aio_set_fd_handler */
  function SetHandler(st: State, q: Request): State {
    var found := Find(st.heap, st.list, q.fd);
    if !q.read && !q.write then
      match found
      case None => st
      case Some(b) =>
        if st.walk.Some? then st.(heap := st.heap[b := st.heap[b].(deleted := true)]) else Unlinked(st, b)
    else
      var node := Node(q.fd, q.read, q.write, q.queue, false);
      match found
      case None => st.(heap := st.heap[st.unused := node], unused := st.unused + 1, list := [st.unused] + st.list)
      case Some(b) => st.(heap := st.heap[b := node])
  }

  function Begin(st: State, purpose: Purpose): State {
    st.(walk := Some(Walk(purpose, First(st.list), 0, st.list, [], [])))
  }

  /** The callback due at a stage of a node, if any. */
  function Due(n: Node, b: Id, purpose: Purpose, stage: nat): Option<Call> {
    match purpose
    case Dispatch(readable, writable) =>
      if stage == 0 && !n.deleted && n.fd in readable && n.canRead then Some(ReadCall(b))
      else if stage == 1 && !n.deleted && n.fd in writable && n.canWrite then Some(WriteCall(b))
      else None
    case Queues => if stage == 0 && n.hasQueue then Some(QueueCall(b)) else None
  }

  function WithCall(calls: seq<Call>, due: Option<Call>): seq<Call> {
    match due
    case None => calls
    case Some(c) => calls + [c]
  }

  /** The walk calls what is due and goes to the next stage, or moves past the node, or ends. */
  function Advance(st: State): State
    requires st.walk.Some?
  {
    var w := st.walk.value;
    match w.cur
    case None => st.(walk := None)
    case Some(b) =>
      if b !in st.heap then st.(touchedFreed := true)
      else if w.stage < 2 then
        var due := Due(st.heap[b], b, w.purpose, w.stage);
        st.(walk := Some(w.(stage := w.stage + 1, calls := WithCall(w.calls, due))),
            calledDeleted := st.calledDeleted || (w.purpose.Dispatch? && due.Some? && st.heap[b].deleted))
      else
        var w' := w.(cur := After(st.list, b), stage := 0, visited := w.visited + [b]);
        (if w.purpose.Dispatch? && st.heap[b].deleted then Unlinked(st, b) else st).(walk := Some(w'))
  }

  /** Handlers are set at any time, inside a walk by the callbacks it calls; walks do not nest. */
  datatype Event = Set(q: Request) | Start(purpose: Purpose) | Move

  function Step(st: State, ev: Event): State {
    match ev
    case Set(q) => SetHandler(st, q)
    case Start(purpose) => if st.walk.None? then Begin(st, purpose) else st
    case Move => if st.walk.Some? then Advance(st) else st
  }

  function Run(st: State, evs: seq<Event>): State
    decreases |evs|
  {
    if evs == [] then st else Run(Step(st, evs[0]), evs[1..])
  }

  // ----- the invariant

  /** Listed nodes are allocated and distinct, and at most one per descriptor is not deleted. */
  ghost predicate Shape(heap: map<Id, Node>, unused: Id, list: seq<Id>) {
    && (forall b :: b in heap ==> b < unused)
    && (forall b :: b in list ==> b in heap)
    && NoDup(list)
    && forall a, b :: a in list && b in list && !heap[a].deleted && Live(heap, b, heap[a].fd) ==> a == b
  }

  /** What was visited and what is still ahead are together the list as it was at the start. */
  ghost predicate WalkOk(list: seq<Id>, w: Walk) {
    && w.initial == w.visited + From(list, w.cur)
    && (w.cur.Some? ==> w.cur.value in list)
  }

  ghost predicate Inv(st: State) {
    && Shape(st.heap, st.unused, st.list)
    && (st.walk.Some? ==> WalkOk(st.list, st.walk.value))
    && !st.touchedFreed && !st.calledDeleted
  }

  // ----- lists

  lemma {:induction false} WithoutNoDup(list: seq<Id>, b: Id)
    requires NoDup(list)
    ensures NoDup(Without(list, b))
    decreases |list|
  {
    if list != [] {
      NoDupTail(list);
      WithoutNoDup(list[1..], b);
      if list[0] != b {
        NoDupHead(Without(list[1..], b), list[0]);
      } else {
        assert Without(list, b) == [] + Without(list[1..], b) == Without(list[1..], b);
      }
    }
  }

  lemma {:induction false} WithoutAbsent(list: seq<Id>, b: Id)
    requires b !in list
    ensures Without(list, b) == list
    decreases |list|
  {
    if list != [] {
      WithoutAbsent(list[1..], b);
    }
  }

  /** Removing b does not change what is ahead of a later node. */
  lemma {:induction false} FromWithout(list: seq<Id>, b: Id)
    requires NoDup(list) && b in list
    ensures From(Without(list, b), After(list, b)) == From(list, After(list, b))
    decreases |list|
  {
    NoDupTail(list);
    var rest := list[1..];
    if list[0] == b {
      WithoutAbsent(rest, b);
      assert Without(list, b) == [] + rest == rest;
      if rest == [] {
        FromNone(list);
        FromNone(rest);
      }
    } else {
      FromWithout(rest, b);
      FromAfter(rest, b);
      var w := Without(rest, b);
      assert Without(list, b) == [list[0]] + w;
      assert ([list[0]] + w)[1..] == w;
    }
  }

  // ----- every step keeps the invariant

  lemma InsertShape(heap: map<Id, Node>, unused: Id, list: seq<Id>, node: Node)
    requires Shape(heap, unused, list) && !node.deleted && forall b :: b in list ==> !Live(heap, b, node.fd)
    ensures Shape(heap[unused := node], unused + 1, [unused] + list)
  {
    assert unused !in list;
    NoDupHead(list, unused);
  }

  lemma UpdateShape(heap: map<Id, Node>, unused: Id, list: seq<Id>, b: Id, node: Node)
    requires Shape(heap, unused, list) && b in list && Live(heap, b, node.fd)
    ensures Shape(heap[b := node], unused, list)
  {
    hide NoDup;
  }

  lemma UnlinkedShape(st: State, b: Id)
    requires Shape(st.heap, st.unused, st.list)
    ensures Shape(Unlinked(st, b).heap, st.unused, Unlinked(st, b).list)
  {
    hide NoDup;
    WithoutNoDup(st.list, b);
  }

  lemma InsertWalk(list: seq<Id>, n: Id, w: Walk)
    requires WalkOk(list, w) && n !in list
    ensures WalkOk([n] + list, w)
  {
    FromHead(list, n, w.cur);
    FromNone(list);
    FromNone([n] + list);
  }

  lemma SetKeepsInv(st: State, q: Request)
    requires Inv(st)
    ensures Inv(SetHandler(st, q))
  {
    hide NoDup, Without;
    var found := Find(st.heap, st.list, q.fd);
    if found.Some? {
      var b := found.value;
      UpdateShape(st.heap, st.unused, st.list, b, st.heap[b].(deleted := true));
      UpdateShape(st.heap, st.unused, st.list, b, Node(q.fd, q.read, q.write, q.queue, false));
      UnlinkedShape(st, b);
    } else {
      InsertShape(st.heap, st.unused, st.list, Node(q.fd, q.read, q.write, q.queue, false));
      if st.walk.Some? {
        InsertWalk(st.list, st.unused, st.walk.value);
      }
    }
  }

  lemma MovePast(st: State, b: Id)
    requires Inv(st) && st.walk.Some? && st.walk.value.cur == Some(b)
    ensures
      var w := st.walk.value;
      var w' := w.(cur := After(st.list, b), stage := 0, visited := w.visited + [b]);
      WalkOk(st.list, w') && WalkOk(Without(st.list, b), w')
  {
    var w := st.walk.value;
    FromAfter(st.list, b);
    FromWithout(st.list, b);
    assert w.visited + ([b] + From(st.list, After(st.list, b))) == w.visited + [b] + From(st.list, After(st.list, b));
  }

  lemma AdvanceKeepsInv(st: State)
    requires Inv(st) && st.walk.Some?
    ensures Inv(Advance(st))
  {
    hide NoDup, Without, From, After;
    var w := st.walk.value;
    if w.cur.Some? {
      var b := w.cur.value;
      MovePast(st, b);
      UnlinkedShape(st, b);
    }
  }

  lemma StepKeepsInv(st: State, ev: Event)
    requires Inv(st)
    ensures Inv(Step(st, ev))
  {
    hide Shape, SetHandler, Advance;
    match ev
    case Set(q) => SetKeepsInv(st, q);
    case Start(purpose) =>
      FromFirst(st.list);
      assert [] + st.list == st.list;
    case Move => if st.walk.Some? { AdvanceKeepsInv(st); }
  }

  /** In every run: at most one handler per descriptor is not deleted, no walk touches a freed node, and
      no dispatch walk calls a deleted handler. */
  lemma {:induction false} RunKeepsInv(st: State, evs: seq<Event>)
    requires Inv(st)
    ensures
      var st' := Run(st, evs);
      && Inv(st') && !st'.touchedFreed && !st'.calledDeleted
      && (forall a, b :: a in st'.list && b in st'.list && Live(st'.heap, a, st'.heap[a].fd) && Live(st'.heap, b, st'.heap[a].fd) ==> a == b)
    decreases |evs|
  {
    hide Step, WalkOk;
    if evs != [] {
      StepKeepsInv(st, evs[0]);
      RunKeepsInv(Step(st, evs[0]), evs[1..]);
    }
  }

  /** No event of a walk changes where it began. */
  lemma {:induction false} RunKeepsInitial(st: State, evs: seq<Event>)
    requires st.walk.Some? && Run(st, evs).walk.Some? && forall i :: 0 <= i < |evs| ==> !evs[i].Start?
    ensures Run(st, evs).walk.value.initial == st.walk.value.initial
    decreases |evs|
  {
    hide Find, Without, After, Due, Live;
    if evs != [] {
      var st' := Step(st, evs[0]);
      if st'.walk.None? {
        StaysIdle(st', evs[1..]);
      } else {
        RunKeepsInitial(st', evs[1..]);
      }
    }
  }

  lemma {:induction false} StaysIdle(st: State, evs: seq<Event>)
    requires st.walk.None? && forall i :: 0 <= i < |evs| ==> !evs[i].Start?
    ensures Run(st, evs).walk.None?
    decreases |evs|
  {
    hide Find, Without, Live;
    if evs != [] {
      StaysIdle(Step(st, evs[0]), evs[1..]);
    }
  }

  /** A walk that reaches its end has visited every node of the list it started with once, in order,
      and no node added since. */
  lemma WalkVisitsAll(st: State, purpose: Purpose, evs: seq<Event>)
    requires Inv(st) && st.walk.None? && forall i :: 0 <= i < |evs| ==> !evs[i].Start?
    requires var st' := Run(Begin(st, purpose), evs); st'.walk.Some? && st'.walk.value.cur == None
    ensures Run(Begin(st, purpose), evs).walk.value.visited == st.list && NoDup(st.list)
  {
    hide Run;
    StepKeepsInv(st, Start(purpose));
    RunKeepsInv(Begin(st, purpose), evs);
    RunKeepsInitial(Begin(st, purpose), evs);
    var st' := Run(Begin(st, purpose), evs);
    FromNone(st'.list);
    assert st'.walk.value.visited + [] == st'.walk.value.visited;
  }
}
