/** The run of a migration as a function of its inputs: what the guest does between the calls, how the
    outstanding reads finish, and the answers of the file decide every event. */
module BlockRun {
  import opened BlockState
  import opened BlockInvariant
  import opened BlockMigration

  /** A step that is not the migration thread's. */
  predicate IsEnv(ev: Event) {
    ev.GuestBegin? || ev.GuestByte? || ev.GuestEnd? || ev.GuestWrite? || ev.ReadByte? || ev.ReadDone?
  }

  /** How the outstanding requests finish, given the devices and the reads in flight. */
  type Environment = (seq<Dev>, seq<Read>) -> seq<Event>

  predicate OnlyEnv(evs: seq<Event>) {
    forall i :: 0 <= i < |evs| ==> IsEnv(evs[i])
  }

  ghost predicate Finishes(st: State, script: seq<Event>) {
    && OnlyEnv(script)
    && OrderlyRun(st, script) && Run(st, script).pending == []
  }

  /** From every state all reads finish, those of one chunk in order: what qemu_aio_flush waits for. */
  ghost predicate Flushes(env: Environment) {
    forall st :: Valid(st) ==> Finishes(st, env(st.devs, st.pending))
  }

  /** What happens before a stage 2 call, and the answers of the file during it. */
  datatype Round = Round(script: seq<Event>, limit: nat, before: seq<bool>, after: seq<bool>)

  // ----- runs in pieces

  lemma {:induction false} RunConcat(st: State, a: seq<Event>, b: seq<Event>)
    ensures Run(st, a + b) == Run(Run(st, a), b)
    ensures OrderlyRun(st, a + b) <==> OrderlyRun(st, a) && OrderlyRun(Run(st, a), b)
    decreases |a|
  {
    hide Step, Orderly;
    if a == [] {
      assert a + b == b;
    } else {
      assert (a + b)[1..] == a[1..] + b;
      RunConcat(Step(st, a[0]), a[1..], b);
    }
  }

  lemma RunOne(st: State, ev: Event)
    ensures Run(st, [ev]) == Step(st, ev)
    ensures OrderlyRun(st, [ev]) <==> Orderly(st, ev)
  {
    hide Step, Orderly;
    assert [ev][1..] == [];
  }

  lemma RunNone(st: State)
    ensures Run(st, []) == st && OrderlyRun(st, [])
  {}

  lemma {:induction false} RunShape(st: State, evs: seq<Event>)
    ensures SameShape(st.devs, Run(st, evs).devs)
    decreases |evs|
  {
    hide Step, Total;
    if evs != [] {
      StepShape(st, evs[0]);
      RunShape(Step(st, evs[0]), evs[1..]);
    }
  }

  /** Environment steps leave the fields of the migration thread alone, and each read is counted once. */
  lemma EnvKeeps(st: State, ev: Event)
    requires IsEnv(ev)
    ensures
      var st' := Step(st, ev);
      && st'.out == st.out && st'.bulkCompleted == st.bulkCompleted && st'.prevProgress == st.prevProgress
      && st'.submitted + st'.readDone == st.submitted + st.readDone
  {
    hide BeginWrite, WriteByte, EndWrite, WriteNow, Sampled, Finished, Complete, UnderWrite, InDisk;
  }

  lemma {:induction false} EnvRunKeeps(st: State, evs: seq<Event>)
    requires OnlyEnv(evs)
    ensures
      var st' := Run(st, evs);
      && st'.out == st.out && st'.bulkCompleted == st.bulkCompleted && st'.prevProgress == st.prevProgress
      && st'.submitted + st'.readDone == st.submitted + st.readDone
    decreases |evs|
  {
    hide Step, IsEnv;
    if evs != [] {
      EnvKeeps(st, evs[0]);
      EnvRunKeeps(Step(st, evs[0]), evs[1..]);
    }
  }

  /** The events of a call and what it returns; for a flush and a whole call, whether it stopped at a
      failed read. */
  datatype Ran<T> = Ran(evs: seq<Event>, result: T)

  // ----- the dirty pass

  /** Waiting for a chunk marked in flight. */
  function AwaitEvents(st: State, d: nat, c: nat, env: Environment): seq<Event>
    requires d < |st.devs|
  {
    if c in st.devs[d].inflight then env(st.devs, st.pending) else []
  }

  /** Where the cursor of mig_save_device_dirty ends, and whether it submitted a chunk. */
  datatype Cursor = Cursor(sector: nat, found: bool)

  function ScanDevice(st: State, d: nat, sector: nat, env: Environment): Ran<Cursor>
    requires d < |st.devs|
    decreases Total(st.devs[d]) - sector
  {
    if sector >= Total(st.devs[d]) then Ran([], Cursor(sector, false))
    else
      var c := sector / 2048;
      var wait := AwaitEvents(st, d, c, env);
      var st' := Run(st, wait);
      RunShape(st, wait);
      if c in st'.devs[d].dirty then Ran(wait + [DirtyStep(d, c)], Cursor(sector, true))
      else
        var rest := ScanDevice(st', d, sector + 2048, env);
        rest.(evs := wait + rest.evs)
  }

  /** The same for blk_mig_save_dirty_block, from device d on. */
  datatype Cursors = Cursors(sectors: seq<nat>, found: bool)

  function ScanFrom(st: State, cursors: seq<nat>, d: nat, env: Environment): (r: Ran<Cursors>)
    requires |cursors| == |st.devs| && d <= |st.devs|
    ensures |r.result.sectors| == |cursors|
    decreases |st.devs| - d
  {
    if d == |st.devs| then Ran([], Cursors(cursors, false))
    else
      var s := ScanDevice(st, d, cursors[d], env);
      RunShape(st, s.evs);
      if s.result.found then Ran(s.evs, Cursors(cursors[d := s.result.sector], true))
      else
        var rest := ScanFrom(Run(st, s.evs), cursors[d := s.result.sector], d + 1, env);
        rest.(evs := s.evs + rest.evs)
  }

  /** The reads being made and waiting to be sent. */
  function Outstanding(st: State): int {
    st.submitted + st.readDone
  }

  /** The state after a wait. */
  lemma AwaitKeeps(st: State, d: nat, c: nat, env: Environment)
    requires Valid(st) && d < |st.devs| && Flushes(env)
    ensures
      var evs := AwaitEvents(st, d, c, env);
      var st' := Run(st, evs);
      && Valid(st') && OrderlyRun(st, evs) && SameShape(st.devs, st'.devs) && OnlyEnv(evs)
      && st'.bulkCompleted == st.bulkCompleted && Outstanding(st') == Outstanding(st)
      && (c in st.devs[d].inflight ==> st'.pending == [])
  {
    hide Run, Valid, OrderlyRun, IsEnv;
    var evs := AwaitEvents(st, d, c, env);
    RunNone(st);
    if c in st.devs[d].inflight {
      assert Finishes(st, evs);
    }
    RunShape(st, evs);
    EnvRunKeeps(st, evs);
    RunKeepsValid(st, evs);
  }

  lemma SubmitCounts(st: State, d: nat, c: nat)
    requires Valid(st) && st.bulkCompleted && d < |st.devs| && 2048 * c < Total(st.devs[d]) && c in st.devs[d].dirty
    ensures
      var st' := Step(st, DirtyStep(d, c));
      && Valid(st') && st'.bulkCompleted && |st'.devs| == |st.devs| && Outstanding(st') == Outstanding(st) + 1
      && Orderly(st, DirtyStep(d, c))
  {
    hide Valid, NewRead;
    StepKeepsValid(st, DirtyStep(d, c));
  }

  /** A pass over one device counts what it submits, and is orderly. */
  lemma {:induction false} ScanDeviceKeeps(st: State, d: nat, sector: nat, env: Environment)
    requires Valid(st) && st.bulkCompleted && d < |st.devs| && Flushes(env)
    ensures
      var s := ScanDevice(st, d, sector, env);
      var st' := Run(st, s.evs);
      && Valid(st') && OrderlyRun(st, s.evs) && st'.bulkCompleted && |st'.devs| == |st.devs|
      && Outstanding(st') == Outstanding(st) + if s.result.found then 1 else 0
    decreases Total(st.devs[d]) - sector
  {
    hide Valid, Run, OrderlyRun, Step, Flushes, Orderly, Outstanding;
    if sector >= Total(st.devs[d]) {
      RunNone(st);
    } else {
      var c := sector / 2048;
      var wait := AwaitEvents(st, d, c, env);
      AwaitKeeps(st, d, c, env);
      var st' := Run(st, wait);
      if c in st'.devs[d].dirty {
        SubmitCounts(st', d, c);
        RunOne(st', DirtyStep(d, c));
        RunConcat(st, wait, [DirtyStep(d, c)]);
      } else {
        ScanDeviceKeeps(st', d, sector + 2048, env);
        RunConcat(st, wait, ScanDevice(st', d, sector + 2048, env).evs);
      }
    }
  }

  lemma {:induction false} ScanFromKeeps(st: State, cursors: seq<nat>, d: nat, env: Environment)
    requires Valid(st) && st.bulkCompleted && |cursors| == |st.devs| && d <= |st.devs| && Flushes(env)
    ensures
      var s := ScanFrom(st, cursors, d, env);
      var st' := Run(st, s.evs);
      && Valid(st') && OrderlyRun(st, s.evs) && st'.bulkCompleted && |st'.devs| == |st.devs|
      && Outstanding(st') == Outstanding(st) + if s.result.found then 1 else 0
    decreases |st.devs| - d
  {
    hide Valid, Run, OrderlyRun, Step, Flushes, Orderly, ScanDevice, Outstanding;
    if d == |st.devs| {
      RunNone(st);
    } else {
      var s := ScanDevice(st, d, cursors[d], env);
      ScanDeviceKeeps(st, d, cursors[d], env);
      if !s.result.found {
        var st' := Run(st, s.evs);
        ScanFromKeeps(st', cursors[d := s.result.sector], d + 1, env);
        RunConcat(st, s.evs, ScanFrom(st', cursors[d := s.result.sector], d + 1, env).evs);
      }
    }
  }

  // ----- stage 2

  /** Each bulk step submits a read, gets past a device, or ends the bulk phase. */
  lemma BulkProgress(st: State)
    requires Valid(st) && !st.bulkCompleted
    ensures
      var st' := Step(st, BulkStep);
      && st'.readDone == st.readDone && |st'.devs| == |st.devs|
      && (|| (st'.bulkCompleted && st'.submitted == st.submitted)
          || st'.submitted == st.submitted + 1
          || (st'.submitted == st.submitted && !st'.bulkCompleted && FirstUnfinished(st'.devs, 0) > FirstUnfinished(st.devs, 0)))
  {
    hide NewRead, Percent, ValidDev, ValidReads, ValidBlocks, ValidOut;
    BulkEnabled(st);
    var d := FirstUnfinished(st.devs, 0);
    if d < |st.devs| && BulkStart(st.devs[d]) == Total(st.devs[d]) {
      var devs := BulkDevice(st, d).devs;
      assert forall k :: 0 <= k <= d ==> devs[k].bulkDone;
    }
  }

  lemma BulkStepKeeps(st: State)
    requires Valid(st) && !st.bulkCompleted
    ensures
      var st' := Step(st, BulkStep);
      && Valid(st') && |st'.devs| == |st.devs|
      && (|| (st'.bulkCompleted && Outstanding(st') == Outstanding(st))
          || Outstanding(st') == Outstanding(st) + 1
          || (Outstanding(st') == Outstanding(st) && !st'.bulkCompleted && FirstUnfinished(st'.devs, 0) > FirstUnfinished(st.devs, 0)))
  {
    hide Valid, Step;
    StepKeepsValid(st, BulkStep);
    BulkProgress(st);
  }

  /** The submitting loop of stage 2, which keeps up to `limit` bytes read or being read. */
  ghost function SubmitEvents(st: State, cursors: seq<nat>, limit: nat, env: Environment): seq<Event>
    requires Valid(st) && |cursors| == |st.devs| && Flushes(env)
    decreases limit - Outstanding(st) * 1048576, !st.bulkCompleted, |st.devs| - FirstUnfinished(st.devs, 0)
  {
    if Outstanding(st) * 1048576 >= limit then []
    else if !st.bulkCompleted then
      BulkStepKeeps(st);
      [BulkStep] + SubmitEvents(Step(st, BulkStep), cursors, limit, env)
    else
      var s := ScanFrom(st, cursors, 0, env);
      ScanFromKeeps(st, cursors, 0, env);
      if s.result.found then s.evs + SubmitEvents(Run(st, s.evs), s.result.sectors, limit, env) else s.evs
  }

  /** flush_blks: from the head of the queue until the file is limited, the queue is empty, or a read
      had failed. */
  function FlushRun(st: State, limits: seq<bool>): Ran<bool>
    decreases |limits|
  {
    if limits == [] || limits[0] || st.queue == [] then Ran([], false)
    else if !st.queue[0].ok then Ran([], true)
    else
      var rest := FlushRun(Step(st, FlushStep), limits[1..]);
      rest.(evs := [FlushStep] + rest.evs)
  }

  lemma {:induction false} FlushRunKeeps(st: State, limits: seq<bool>)
    requires Valid(st)
    ensures
      var o := FlushRun(st, limits);
      var st' := Run(st, o.evs);
      && Valid(st') && OrderlyRun(st, o.evs) && st'.devs == st.devs && st'.pending == st.pending
      && (o.result ==> Failed(st'.queue))
      && (!o.result && |limits| > |st.queue| && (forall i :: 0 <= i < |limits| ==> !limits[i]) ==> st'.queue == [])
    decreases |limits|
  {
    hide Valid, Run, OrderlyRun;
    RunNone(st);
    if limits != [] && !limits[0] && st.queue != [] && st.queue[0].ok {
      var st' := Step(st, FlushStep);
      FlushKeepsValid(st);
      FlushRunKeeps(st', limits[1..]);
      RunOne(st, FlushStep);
      RunConcat(st, [FlushStep], FlushRun(st', limits[1..]).evs);
    }
  }

  /** The cursors at the start of a pass. */
  function Zeros(n: nat): (r: seq<nat>)
    ensures |r| == n
  {
    seq(n, _ => 0)
  }

  /** The submitting loop ends with enough outstanding or with nothing left to submit, and is orderly. */
  lemma {:induction false} SubmitKeeps(st: State, cursors: seq<nat>, limit: nat, env: Environment)
    requires Valid(st) && |cursors| == |st.devs| && Flushes(env)
    ensures
      var evs := SubmitEvents(st, cursors, limit, env);
      var st' := Run(st, evs);
      && Valid(st') && OrderlyRun(st, evs)
      && (Outstanding(st') * 1048576 >= limit || st'.bulkCompleted)
    decreases limit - Outstanding(st) * 1048576, !st.bulkCompleted, |st.devs| - FirstUnfinished(st.devs, 0)
  {
    hide Valid, Run, OrderlyRun, Step, Flushes, FirstUnfinished, ScanFrom, Outstanding;
    if Outstanding(st) * 1048576 >= limit {
      RunNone(st);
    } else if !st.bulkCompleted {
      var st' := Step(st, BulkStep);
      BulkStepKeeps(st);
      SubmitKeeps(st', cursors, limit, env);
      RunOne(st, BulkStep);
      RunConcat(st, [BulkStep], SubmitEvents(st', cursors, limit, env));
    } else {
      var s := ScanFrom(st, cursors, 0, env);
      ScanFromKeeps(st, cursors, 0, env);
      if s.result.found {
        var st' := Run(st, s.evs);
        SubmitKeeps(st', s.result.sectors, limit, env);
        RunConcat(st, s.evs, SubmitEvents(st', s.result.sectors, limit, env));
      }
    }
  }

  /** The first flush of stage 2 and the reads it submits. */
  ghost function Stage2Reads(st: State, r: Round, env: Environment): Ran<bool>
    requires Valid(st) && Flushes(env)
  {
    var a := FlushRun(st, r.before);
    FlushRunKeeps(st, r.before);
    if a.result then a
    else a.(evs := a.evs + SubmitEvents(Run(st, a.evs), Zeros(|Run(st, a.evs).devs|), r.limit, env))
  }

  /** block_save_live in stage 2. */
  ghost function Stage2(st: State, r: Round, env: Environment): Ran<bool>
    requires Valid(st) && Flushes(env)
  {
    var a := Stage2Reads(st, r, env);
    var b := FlushRun(Run(st, a.evs), r.after);
    if a.result then a
    else if b.result then b.(evs := a.evs + b.evs)
    else Ran(a.evs + b.evs + [EndSection], false)
  }

  lemma Stage2ReadsKeeps(st: State, r: Round, env: Environment)
    requires Valid(st) && Flushes(env)
    ensures
      var o := Stage2Reads(st, r, env);
      var st' := Run(st, o.evs);
      && Valid(st') && OrderlyRun(st, o.evs) && (o.result ==> Failed(st'.queue))
      && (!o.result ==> Outstanding(st') * 1048576 >= r.limit || st'.bulkCompleted)
  {
    hide Valid, Run, OrderlyRun, Step, Flushes, Failed, FlushRun, SubmitEvents, Outstanding;
    var a := FlushRun(st, r.before);
    FlushRunKeeps(st, r.before);
    if !a.result {
      var st' := Run(st, a.evs);
      SubmitKeeps(st', Zeros(|st'.devs|), r.limit, env);
      RunConcat(st, a.evs, SubmitEvents(st', Zeros(|st'.devs|), r.limit, env));
    }
  }

  lemma EndSectionKeeps(st: State)
    requires Valid(st)
    ensures Valid(Step(st, EndSection)) && Orderly(st, EndSection)
    ensures var out := Step(st, EndSection).out; out != [] && out[|out| - 1].Eos?
  {
    hide Valid;
    EosKeepsValid(st);
  }

  lemma Stage2Keeps(st: State, r: Round, env: Environment)
    requires Valid(st) && Flushes(env)
    ensures
      var o := Stage2(st, r, env);
      var st' := Run(st, o.evs);
      && Valid(st') && OrderlyRun(st, o.evs) && (o.result ==> Failed(st'.queue))
      && (!o.result ==> st'.out != [] && st'.out[|st'.out| - 1].Eos?)
  {
    hide Valid, Run, OrderlyRun, Step, Flushes, Failed, FlushRun, Stage2Reads, Orderly;
    var a := Stage2Reads(st, r, env);
    Stage2ReadsKeeps(st, r, env);
    if !a.result {
      var st1 := Run(st, a.evs);
      var b := FlushRun(st1, r.after);
      FlushRunKeeps(st1, r.after);
      RunConcat(st, a.evs, b.evs);
      if !b.result {
        var st2 := Run(st, a.evs + b.evs);
        EndSectionKeeps(st2);
        RunOne(st2, EndSection);
        RunConcat(st, a.evs + b.evs, [EndSection]);
      }
    }
  }

  // ----- whole migrations

  predicate OnlyEnvRounds(rounds: seq<Round>) {
    forall i :: 0 <= i < |rounds| ==> OnlyEnv(rounds[i].script)
  }

  /** The environment moves and stage 2 is called. */
  ghost function RoundRun(st: State, r: Round, env: Environment): Ran<bool>
    requires Valid(st) && Flushes(env)
  {
    RunKeepsValid(st, r.script);
    var o := Stage2(Run(st, r.script), r, env);
    o.(evs := r.script + o.evs)
  }

  lemma RoundKeeps(st: State, r: Round, env: Environment)
    requires Valid(st) && Flushes(env)
    ensures
      var o := RoundRun(st, r, env);
      var st' := Run(st, o.evs);
      && Valid(st') && (OrderlyRun(st, o.evs) <==> OrderlyRun(st, r.script)) && (o.result ==> Failed(st'.queue))
  {
    hide Valid, Run, OrderlyRun, Step, Flushes, Failed, Stage2;
    RunKeepsValid(st, r.script);
    var st' := Run(st, r.script);
    Stage2Keeps(st', r, env);
    RunConcat(st, r.script, Stage2(st', r, env).evs);
  }

  /** The rounds in turn, until one fails. */
  ghost function RoundsRun(st: State, rounds: seq<Round>, env: Environment): Ran<bool>
    requires Valid(st) && Flushes(env)
    decreases |rounds|
  {
    if rounds == [] then Ran([], false)
    else
      var o := RoundRun(st, rounds[0], env);
      RoundKeeps(st, rounds[0], env);
      if o.result then o
      else
        var rest := RoundsRun(Run(st, o.evs), rounds[1..], env);
        rest.(evs := o.evs + rest.evs)
  }

  /** The environment finishes reads of a chunk in order whenever it moves. */
  ghost predicate RoundsOrderly(st: State, rounds: seq<Round>, env: Environment)
    requires Valid(st) && Flushes(env)
    decreases |rounds|
  {
    rounds == [] ||
    (var o := RoundRun(st, rounds[0], env);
     RoundKeeps(st, rounds[0], env);
     OrderlyRun(st, rounds[0].script) && (o.result || RoundsOrderly(Run(st, o.evs), rounds[1..], env)))
  }

  lemma {:induction false} RoundsKeep(st: State, rounds: seq<Round>, env: Environment)
    requires Valid(st) && Flushes(env)
    ensures
      var o := RoundsRun(st, rounds, env);
      var st' := Run(st, o.evs);
      && Valid(st') && (OrderlyRun(st, o.evs) <==> RoundsOrderly(st, rounds, env)) && (o.result ==> Failed(st'.queue))
    decreases |rounds|
  {
    hide Valid, Run, OrderlyRun, Step, Flushes, Failed, RoundRun;
    if rounds == [] {
      RunNone(st);
    } else {
      var o := RoundRun(st, rounds[0], env);
      RoundKeeps(st, rounds[0], env);
      if !o.result {
        var st' := Run(st, o.evs);
        RoundsKeep(st', rounds[1..], env);
        RunConcat(st, o.evs, RoundsRun(st', rounds[1..], env).evs);
      }
    }
  }

  /** Stage 1 and the rounds, then what happens until stage 3. */
  ghost function BeforeStage3(st0: State, rounds: seq<Round>, last: seq<Event>, env: Environment): Ran<bool>
    requires Valid(st0) && Flushes(env)
  {
    EndSectionKeeps(st0);
    var a := RoundsRun(Step(st0, EndSection), rounds, env);
    Ran([EndSection] + a.evs + if a.result then [] else last, a.result)
  }

  /** The run of a whole migration up to the synchronous loop of stage 3.  Stage 3 asserts that no read
      is in flight; going on without that is an error here. */
  ghost function MigrationRun(st0: State, rounds: seq<Round>, last: seq<Event>, env: Environment, limits: seq<bool>): Ran<bool>
    requires Valid(st0) && Flushes(env)
  {
    var a := BeforeStage3(st0, rounds, last, env);
    var st := Run(st0, a.evs);
    if a.result then a
    else if st.submitted != 0 then a.(result := true)
    else
      var b := FlushRun(st, limits);
      b.(evs := a.evs + b.evs)
  }

  /** The environment is orderly whenever it moves between the calls. */
  ghost predicate ScriptsOrderly(st0: State, rounds: seq<Round>, last: seq<Event>, env: Environment)
    requires Valid(st0) && Flushes(env)
  {
    EndSectionKeeps(st0);
    var st1 := Step(st0, EndSection);
    var a := RoundsRun(st1, rounds, env);
    RoundsOrderly(st1, rounds, env) && (a.result || OrderlyRun(Run(st1, a.evs), last))
  }

  lemma BeforeStage3Keeps(st0: State, rounds: seq<Round>, last: seq<Event>, env: Environment)
    requires Valid(st0) && Flushes(env)
    ensures
      var o := BeforeStage3(st0, rounds, last, env);
      var st := Run(st0, o.evs);
      && Valid(st) && (OrderlyRun(st0, o.evs) <==> ScriptsOrderly(st0, rounds, last, env)) && (o.result ==> Failed(st.queue))
  {
    hide Valid, Run, OrderlyRun, Step, Flushes, Failed, RoundsRun, RoundsOrderly, Orderly;
    var st1 := Step(st0, EndSection);
    EndSectionKeeps(st0);
    RunOne(st0, EndSection);
    var a := RoundsRun(st1, rounds, env);
    RoundsKeep(st1, rounds, env);
    RunConcat(st0, [EndSection], a.evs);
    var evs := [EndSection] + a.evs;
    var st2 := Run(st0, evs);
    if a.result {
      assert evs + [] == evs;
    } else {
      RunConcat(st0, evs, last);
      RunKeepsValid(st2, last);
    }
  }

  /** Every migration keeps the state well formed; it fails only at a failed read or with reads still in
      flight; and it is orderly exactly when the environment was between the calls. */
  lemma MigrationRunKeeps(st0: State, rounds: seq<Round>, last: seq<Event>, env: Environment, limits: seq<bool>)
    requires Valid(st0) && Flushes(env)
    ensures
      var o := MigrationRun(st0, rounds, last, env, limits);
      var st := Run(st0, o.evs);
      && Valid(st) && (OrderlyRun(st0, o.evs) <==> ScriptsOrderly(st0, rounds, last, env))
      && (if o.result then Failed(st.queue) || st.submitted != 0 else st.pending == [])
  {
    hide Valid, Run, OrderlyRun, Step, Flushes, Failed, BeforeStage3, FlushRun, ScriptsOrderly;
    var a := BeforeStage3(st0, rounds, last, env);
    BeforeStage3Keeps(st0, rounds, last, env);
    var st := Run(st0, a.evs);
    if !a.result && st.submitted == 0 {
      NonePending(st);
      FlushRunKeeps(st, limits);
      RunConcat(st0, a.evs, FlushRun(st, limits).evs);
    }
  }

  lemma NonePending(st: State)
    requires Valid(st) && st.submitted == 0
    ensures st.pending == []
  {}

  // ----- one turn of each loop

  function Then<T>(evs: seq<Event>, r: Ran<T>): Ran<T> {
    r.(evs := evs + r.evs)
  }

  lemma ThenConcat<T>(a: seq<Event>, b: seq<Event>, r: Ran<T>)
    ensures Then(a, Then(b, r)) == Then(a + b, r) && Then([], r) == r && Then(a, r.(evs := [])).evs == a
  {
    assert a + (b + r.evs) == (a + b) + r.evs;
    assert [] + r.evs == r.evs;
  }

  lemma ScanDeviceUnfolds(st: State, d: nat, sector: nat, env: Environment)
    requires d < |st.devs|
    ensures
      var c := sector / 2048;
      var wait := AwaitEvents(st, d, c, env);
      var st' := Run(st, wait);
      && d < |st'.devs|
      && ScanDevice(st, d, sector, env) ==
         if sector >= Total(st.devs[d]) then Ran([], Cursor(sector, false))
         else if c in st'.devs[d].dirty then Then(wait, Ran([DirtyStep(d, c)], Cursor(sector, true)))
         else Then(wait, ScanDevice(st', d, sector + 2048, env))
  {
    hide Run, AwaitEvents;
    RunShape(st, AwaitEvents(st, d, sector / 2048, env));
  }

  lemma ScanFromUnfolds(st: State, cursors: seq<nat>, d: nat, env: Environment)
    requires |cursors| == |st.devs| && d <= |st.devs|
    ensures
      if d == |st.devs| then ScanFrom(st, cursors, d, env) == Ran([], Cursors(cursors, false))
      else
        var s := ScanDevice(st, d, cursors[d], env);
        var st' := Run(st, s.evs);
        && |st'.devs| == |st.devs|
        && ScanFrom(st, cursors, d, env) ==
           if s.result.found then Then(s.evs, Ran([], Cursors(cursors[d := s.result.sector], true)))
           else Then(s.evs, ScanFrom(st', cursors[d := s.result.sector], d + 1, env))
  {
    hide Run, ScanDevice;
    if d < |st.devs| {
      var s := ScanDevice(st, d, cursors[d], env);
      RunShape(st, s.evs);
      assert s.evs + [] == s.evs;
    }
  }

  lemma SubmitUnfolds(st: State, cursors: seq<nat>, limit: nat, env: Environment)
    requires Valid(st) && |cursors| == |st.devs| && Flushes(env)
    ensures
      if Outstanding(st) * 1048576 >= limit then SubmitEvents(st, cursors, limit, env) == []
      else if !st.bulkCompleted then
        var st' := Step(st, BulkStep);
        && Valid(st') && |st'.devs| == |st.devs|
        && SubmitEvents(st, cursors, limit, env) == [BulkStep] + SubmitEvents(st', cursors, limit, env)
      else
        var s := ScanFrom(st, cursors, 0, env);
        var st' := Run(st, s.evs);
        && Valid(st') && |st'.devs| == |st.devs|
        && SubmitEvents(st, cursors, limit, env) == if s.result.found then s.evs + SubmitEvents(st', s.result.sectors, limit, env) else s.evs
  {
    hide Valid, Run, Step, Flushes, ScanFrom, FirstUnfinished;
    if Outstanding(st) * 1048576 < limit {
      if !st.bulkCompleted {
        BulkStepKeeps(st);
      } else {
        ScanFromKeeps(st, cursors, 0, env);
      }
    }
  }

  lemma EventsAssoc(a: seq<Event>, b: seq<Event>, c: seq<Event>)
    ensures a + (b + c) == (a + b) + c
  {}

  lemma FlushRunUnfolds(st: State, limits: seq<bool>)
    ensures FlushRun(st, limits) ==
            if limits == [] || limits[0] || st.queue == [] then Ran([], false)
            else if !st.queue[0].ok then Ran([], true)
            else Then([FlushStep], FlushRun(Step(st, FlushStep), limits[1..]))
  {
    hide Step;
  }
}
