/** The control block of bdrv_aio_multiwrite: it counts the requests in flight plus one dummy request,
    so that callbacks that come early cannot end the multiwrite before the submit loop does.
    Submissions, completions and a failing submission interleave in any way. */
module MultiwriteCompletion {

  /** MultiwriteCB.  `freed` counts qemu_free calls, `fired` lists the user callbacks with their
      results, and `misused` records an access after the block was freed. */
  datatype Mcb = Mcb(error: int, numRequests: int, fired: seq<(nat, int)>, freed: nat, misused: bool)

  /** Where bdrv_aio_multiwrite is: about to submit request i, waiting for the driver's answer for
      request i, past the loop, or back in its caller with 0 or -1. */
  datatype Phase = Submitting(i: nat) | Awaiting(i: nat) | LoopDone | Succeeded | Failed

  /** `inFlight` requests were accepted and have not completed; `results` are all results passed
      to multiwrite_cb so far. */
  datatype World = World(mcb: Mcb, phase: Phase, inFlight: nat, requests: nat, callbacks: nat, results: seq<int>)

  const EIO: int := 5

  function Fired(callbacks: nat, error: int): (r: seq<(nat, int)>)
    ensures |r| == callbacks
  {
    seq(callbacks, i => (i, error))
  }

  /** multiwrite_cb */
  function Complete(m: Mcb, callbacks: nat, ret: int): Mcb {
    if m.freed > 0 then m.(misused := true)
    else
      var error := if ret < 0 && m.error == 0 then ret else m.error;
      if m.numRequests - 1 == 0 then Mcb(error, 0, m.fired + Fired(callbacks, error), 1, m.misused)
      else m.(error := error, numRequests := m.numRequests - 1)
  }

  function Completed(w: World, ret: int): World {
    w.(mcb := Complete(w.mcb, w.callbacks, ret), results := w.results + [ret])
  }

  datatype Event =
    | Next                // the loop counts request i before submitting it, or ends
    | Accept              // bdrv_aio_writev returns a control block
    | Reject              // bdrv_aio_writev returns NULL
    | Done(ret: int)      // an accepted request completes
    | Dummy               // the dummy request is completed after the loop

  function Step(w: World, ev: Event): World {
    match ev
    case Next =>
      if !w.phase.Submitting? then w
      else if w.phase.i >= w.requests then w.(phase := LoopDone)
      else if w.mcb.freed > 0 then w.(phase := Awaiting(w.phase.i), mcb := w.mcb.(misused := true))
      else w.(phase := Awaiting(w.phase.i), mcb := w.mcb.(numRequests := w.mcb.numRequests + 1))
    case Accept =>
      if !w.phase.Awaiting? then w else w.(phase := Submitting(w.phase.i + 1), inFlight := w.inFlight + 1)
    case Reject =>
      if !w.phase.Awaiting? then w
      else if w.phase.i == 0 then
        w.(phase := Failed, mcb := w.mcb.(freed := w.mcb.freed + 1, misused := w.mcb.misused || w.mcb.freed > 0))
      else Completed(w, -EIO).(phase := LoopDone)
    case Done(ret) => if w.inFlight == 0 then w else Completed(w, ret).(inFlight := w.inFlight - 1)
    case Dummy => if w.phase.LoopDone? then Completed(w, 0).(phase := Succeeded) else w
  }

  function Run(w: World, evs: seq<Event>): World
    decreases |evs|
  {
    if evs == [] then w else Run(Step(w, evs[0]), evs[1..])
  }

  /** The control block after the requests have been merged. */
  predicate Initial(w: World) {
    w.mcb == Mcb(0, 1, [], 0, false) && w.phase == Submitting(0) && w.inFlight == 0 && w.results == [] && w.requests > 0
  }

  /** The first negative result, or 0. */
  function FirstNegative(results: seq<int>): int
    decreases |results|
  {
    if results == [] then 0
    else
      var before := FirstNegative(results[..|results| - 1]);
      var last := results[|results| - 1];
      if before == 0 && last < 0 then last else before
  }

  lemma FirstNegativeAppend(results: seq<int>, ret: int)
    ensures FirstNegative(results + [ret]) == if ret < 0 && FirstNegative(results) == 0 then ret else FirstNegative(results)
  {
    assert (results + [ret])[..|results|] == results;
  }

  /** FirstNegative is what its name says. */
  lemma {:induction false} FirstNegativeMeans(results: seq<int>, k: nat)
    requires k < |results| && results[k] < 0 && forall j :: 0 <= j < k ==> results[j] >= 0
    ensures FirstNegative(results) == results[k]
    decreases |results|
  {
    var last := |results| - 1;
    if k < last {
      FirstNegativeMeans(results[..last], k);
    } else {
      NoneNegative(results[..last]);
    }
  }

  lemma {:induction false} NoneNegative(results: seq<int>)
    requires forall j :: 0 <= j < |results| ==> results[j] >= 0
    ensures FirstNegative(results) == 0
    decreases |results|
  {
    if results != [] {
      NoneNegative(results[..|results| - 1]);
    }
  }

  /** The dummy request, and the request whose submission is under way, as numRequests counts them. */
  function Held(phase: Phase): nat {
    match phase
    case Submitting(_) => 1
    case Awaiting(_) => 2
    case LoopDone => 1
    case _ => 0
  }

  predicate Inv(w: World) {
    && !w.mcb.misused
    && w.mcb.error == FirstNegative(w.results)
    && (w.phase.Submitting? ==> w.phase.i <= w.requests && (w.phase.i == 0 ==> w.inFlight == 0))
    && (w.phase.Awaiting? ==> w.phase.i < w.requests && (w.phase.i == 0 ==> w.inFlight == 0))
    && if w.phase.Failed? then w.mcb.freed == 1 && w.mcb.fired == [] && w.inFlight == 0
       else if Held(w.phase) + w.inFlight == 0 then w.mcb.freed == 1 && w.mcb.fired == Fired(w.callbacks, w.mcb.error)
       else w.mcb.freed == 0 && w.mcb.fired == [] && w.mcb.numRequests == Held(w.phase) + w.inFlight
  }

  lemma StepKeepsInv(w: World, ev: Event)
    requires Inv(w)
    ensures Inv(Step(w, ev))
  {
    hide FirstNegative, Fired;
    if ev.Done? {
      FirstNegativeAppend(w.results, ev.ret);
    } else {
      FirstNegativeAppend(w.results, 0);
      FirstNegativeAppend(w.results, -EIO);
    }
    assert [] + Fired(w.callbacks, Step(w, ev).mcb.error) == Fired(w.callbacks, Step(w, ev).mcb.error);
  }

  /** In every run: the block is freed at most once and never used afterwards; no callback fires before
      the loop has ended and all accepted requests are done; then each fires once with the first
      negative result, or 0; after a -1 return none ever fires. */
  lemma {:induction false} RunKeepsInv(w: World, evs: seq<Event>)
    requires Inv(w)
    ensures
      var w' := Run(w, evs);
      && Inv(w') && !w'.mcb.misused && w'.mcb.freed <= 1
      && (w'.mcb.fired != [] ==> w'.phase.Succeeded? && w'.inFlight == 0)
      && (w'.phase.Succeeded? && w'.inFlight == 0 ==> w'.mcb.freed == 1 && w'.mcb.fired == Fired(w'.callbacks, FirstNegative(w'.results)))
      && (w'.phase.Failed? ==> w'.mcb.freed == 1 && w'.mcb.fired == [] && w'.inFlight == 0)
    decreases |evs|
  {
    hide Step, FirstNegative, Fired;
    if evs != [] {
      StepKeepsInv(w, evs[0]);
      RunKeepsInv(Step(w, evs[0]), evs[1..]);
    }
  }

  lemma InitialInv(w: World)
    requires Initial(w)
    ensures Inv(w)
  {}

  lemma {:induction false} RunConcat(w: World, a: seq<Event>, b: seq<Event>)
    ensures Run(w, a + b) == Run(Run(w, a), b)
    decreases |a|
  {
    hide Step;
    if a == [] {
      assert a + b == b;
    } else {
      assert (a + b)[1..] == a[1..] + b;
      RunConcat(Step(w, a[0]), a[1..], b);
    }
  }

  lemma RunOne(w: World, ev: Event)
    ensures Run(w, [ev]) == Step(w, ev)
  {
    hide Step;
    assert [ev][1..] == [];
  }

  /** What the driver does during one bdrv_aio_writev: results of requests that complete meanwhile,
      and whether the request is accepted. */
  datatype Answer = Answer(early: seq<int>, accepted: bool)

  /** The completions given by these results. */
  function Dones(rets: seq<int>): seq<Event> {
    if rets == [] then [] else [Done(rets[0])] + Dones(rets[1..])
  }

  /** One turn of the submit loop. */
  function AnswerEvents(a: Answer): seq<Event> {
    [Next] + Dones(a.early) + [if a.accepted then Accept else Reject]
  }

  /** The submit loop, which ends after the last request or at the first the driver refuses. */
  function SubmitEvents(answers: seq<Answer>): seq<Event> {
    if answers == [] then [Next]
    else AnswerEvents(answers[0]) + if answers[0].accepted then SubmitEvents(answers[1..]) else []
  }

  class Multiwrite {
    const callbacks: nat
    const requests: nat
    var error: int
    var numRequests: int
    var inFlight: nat
    var fired: seq<(nat, int)>
    ghost var freed: nat
    ghost var phase: Phase
    ghost var results: seq<int>

    ghost function Abstract(): World
      reads this
    {
      World(Mcb(error, numRequests, fired, freed, false), phase, inFlight, requests, callbacks, results)
    }

    constructor (callbacks: nat, requests: nat)
      requires requests > 0
      ensures Initial(Abstract()) && this.callbacks == callbacks && this.requests == requests
    {
      this.callbacks, this.requests := callbacks, requests;
      error, numRequests, inFlight, fired := 0, 1, 0, [];
      freed, phase, results := 0, Submitting(0), [];
    }

    /** multiwrite_cb, which may run only while the block is allocated. */
    method Callback(ret: int)
      requires freed == 0
      modifies this`error, this`numRequests, this`fired, this`freed, this`results
      ensures Abstract() == Completed(old(Abstract()), ret)
    {
      if ret < 0 && error == 0 {
        error := ret;
      }
      numRequests := numRequests - 1;
      results := results + [ret];
      if numRequests == 0 {
        UserCallbacks();
        freed := 1;
      }
    }

    /** multiwrite_user_cb */
    method UserCallbacks()
      modifies this`fired
      ensures fired == old(fired) + Fired(callbacks, error)
    {
      for i := 0 to callbacks
        invariant fired == old(fired) + Fired(callbacks, error)[..i]
      {
        fired := fired + [(i, error)];
      }
    }

    /** Requests in flight complete, as long as there are any. */
    method Drive(rets: seq<int>)
      requires Inv(Abstract())
      modifies this`error, this`numRequests, this`fired, this`freed, this`results, this`inFlight
      ensures Inv(Abstract()) && Abstract() == Run(old(Abstract()), Dones(rets))
    {
      hide Run, FirstNegative, Fired, Complete;
      assert rets[0..] == rets;
      for k := 0 to |rets|
        invariant Inv(Abstract()) && Run(old(Abstract()), Dones(rets)) == Run(Abstract(), Dones(rets[k..]))
      {
        ghost var w := Abstract();
        StepKeepsInv(w, Done(rets[k]));
        if inFlight > 0 {
          Callback(rets[k]);
          inFlight := inFlight - 1;
        }
        assert rets[k..][1..] == rets[k + 1..];
        RunOne(w, Done(rets[k]));
        RunConcat(w, [Done(rets[k])], Dones(rets[k + 1..]));
      }
      assert rets[|rets|..] == [];
      RunNone(Abstract());
    }

    /** The submit loop of bdrv_aio_multiwrite and what follows it. */
    method Submit(answers: seq<Answer>) returns (r: int)
      requires Initial(Abstract()) && |answers| == requests
      modifies this
      ensures Abstract() == Run(old(Abstract()), SubmitEvents(answers) + [Dummy]) && Inv(Abstract())
      ensures (r == 0 && phase == Succeeded) || (r == -1 && phase == Failed)
      ensures r == -1 <==> !answers[0].accepted
    {
      hide Run, FirstNegative, Fired, Complete, SubmitEvents, AnswerEvents;
      InitialInv(Abstract());
      ghost var w0, all := Abstract(), SubmitEvents(answers);
      assert answers[0..] == answers;
      var i := 0;
      var broken := false;
      while i < requests && !broken
        invariant i <= requests && Inv(Abstract())
        invariant phase == if broken then LoopDone else Submitting(i)
        invariant broken ==> i > 0 && Run(w0, all) == Abstract()
        invariant !broken ==> Run(w0, all) == Run(Abstract(), SubmitEvents(answers[i..]))
        invariant i > 0 ==> answers[0].accepted
        decreases requests - i, !broken
      {
        ghost var w := Abstract();
        SubmitUnfolds(w, answers[i..]);
        assert answers[i..][1..] == answers[i + 1..];
        broken := SubmitOne(i, answers[i]);
        if broken {
          if i == 0 {
            NoDummy(Abstract());
            RunOne(Abstract(), Dummy);
            RunConcat(w0, all, [Dummy]);
            return -1;
          }
        } else {
          i := i + 1;
        }
      }
      if !broken {
        assert answers[requests..] == [];
        SubmitUnfolds(Abstract(), []);
        StepKeepsInv(Abstract(), Next);
        phase := LoopDone;
      }
      ghost var w := Abstract();
      StepKeepsInv(w, Dummy);
      Callback(0);
      phase := Succeeded;
      RunOne(w, Dummy);
      RunConcat(w0, all, [Dummy]);
      return 0;
    }

    /** One turn of the loop: count the request, submit it, and on failure give up. */
    method SubmitOne(i: nat, answer: Answer) returns (broken: bool)
      requires Inv(Abstract()) && phase == Submitting(i) && i < requests
      modifies this`error, this`numRequests, this`fired, this`freed, this`results, this`inFlight, this`phase
      ensures Inv(Abstract()) && Abstract() == Run(old(Abstract()), AnswerEvents(answer)) && broken == !answer.accepted
      ensures phase == if !broken then Submitting(i + 1) else if i == 0 then Failed else LoopDone
    {
      hide Run, FirstNegative, Fired;
      ghost var w := Abstract();
      StepKeepsInv(w, Next);
      numRequests := numRequests + 1;
      phase := Awaiting(i);
      RunOne(w, Next);
      Drive(answer.early);
      RunConcat(w, [Next], Dones(answer.early));
      ghost var v := Abstract();
      ghost var ev := if answer.accepted then Accept else Reject;
      StepKeepsInv(v, ev);
      if answer.accepted {
        inFlight, phase := inFlight + 1, Submitting(i + 1);
      } else if i == 0 {
        freed, phase := freed + 1, Failed;
      } else {
        Callback(-EIO);
        phase := LoopDone;
      }
      broken := !answer.accepted;
      RunOne(v, ev);
      RunConcat(w, [Next] + Dones(answer.early), [ev]);
    }
  }

  lemma RunNone(w: World)
    ensures Run(w, []) == w
  {}

  lemma NoDummy(w: World)
    requires w.phase == Failed
    ensures Step(w, Dummy) == w
  {}

  lemma SubmitUnfolds(w: World, answers: seq<Answer>)
    ensures
      if answers == [] then Run(w, SubmitEvents(answers)) == Step(w, Next)
      else
        var w' := Run(w, AnswerEvents(answers[0]));
        Run(w, SubmitEvents(answers)) == if answers[0].accepted then Run(w', SubmitEvents(answers[1..])) else w'
  {
    hide Run, Step, AnswerEvents;
    RunOne(w, Next);
    if answers != [] {
      RunConcat(w, AnswerEvents(answers[0]), SubmitEvents(answers[1..]));
      assert AnswerEvents(answers[0]) + [] == AnswerEvents(answers[0]);
    }
  }
}
