/** A whole block migration in code: stage 1, any number of stage 2 calls with the guest and the reads in
    flight going on in between, stage 3, and the receiver loading what was written. */
module BlockEndToEnd {
  import opened Words
  import opened BlockState
  import opened BlockInvariant
  import opened BlockMigration
  import opened BlockRun
  import opened BlockSaver
  import S = BlockStream
  import R = BlockReceiver

  /** The state stage 1 starts from. */
  function StartState(drives: seq<Drive>, sharedBase: bool): State {
    State(StartDevs(Migrated(drives), sharedBase), [], [], [], 0, 0, false, -1)
  }

  predicate WellSized(drives: seq<Drive>) {
    forall i :: 0 <= i < |drives| ==> |drives[i].disk| == 512 * |drives[i].present|
  }

  lemma StartValid(drives: seq<Drive>, sharedBase: bool)
    requires WellSized(drives)
    ensures Initial(StartState(drives, sharedBase)) && BlockState.Valid(StartState(drives, sharedBase))
  {
    StartIsInitial(Migrated(drives), sharedBase);
  }

  /** The run of a migration of these drives. */
  ghost function RunOf(drives: seq<Drive>, sharedBase: bool, rounds: seq<Round>, last: seq<Event>, env: Environment,
                       limits: seq<bool>): Ran<bool>
    requires WellSized(drives) && Flushes(env)
  {
    StartValid(drives, sharedBase);
    MigrationRun(StartState(drives, sharedBase), rounds, last, env, limits)
  }

  /** The state stage 3 starts sending dirty chunks from. */
  ghost function Reached(drives: seq<Drive>, sharedBase: bool, rounds: seq<Round>, last: seq<Event>, env: Environment,
                         limits: seq<bool>): (st: State)
    requires WellSized(drives) && Flushes(env)
    ensures BlockState.Valid(st) && |st.devs| == |Migrated(drives)|
  {
    var st0 := StartState(drives, sharedBase);
    var o := RunOf(drives, sharedBase, rounds, last, env, limits);
    StartValid(drives, sharedBase);
    MigrationRunKeeps(st0, rounds, last, env, limits);
    RunShape(st0, o.evs);
    Run(st0, o.evs)
  }

  /** One stage 2 call after the environment has moved. */
  method DoRound(saver: Saver, r: Round, env: Environment) returns (error: bool)
    requires saver.Ok() && Flushes(env) && OnlyEnv(r.script)
    modifies saver
    ensures var o := RoundRun(old(saver.Abstract()), r, env);
            saver.Ok() && error == o.result && saver.Abstract() == Run(old(saver.Abstract()), o.evs)
    ensures error ==> BlockInvariant.Failed(saver.queue)
  {
    hide Run, Stage2, Saver.Ok, Flushes, OnlyEnv, Failed;
    ghost var st := saver.Abstract();
    assert BlockState.Valid(st) by { OkMeans(saver); }
    RunKeepsValid(st, r.script);
    saver.RunEnvironment(r.script);
    error := saver.SaveStage2(r, env);
    RunConcat(st, r.script, Stage2(Run(st, r.script), r, env).evs);
  }

  lemma OkMeans(saver: Saver)
    requires saver.Ok()
    ensures BlockState.Valid(saver.Abstract())
  {}

  /** The rounds in turn. */
  method DoRounds(saver: Saver, rounds: seq<Round>, env: Environment) returns (error: bool)
    requires saver.Ok() && Flushes(env) && OnlyEnvRounds(rounds)
    modifies saver
    ensures var o := RoundsRun(old(saver.Abstract()), rounds, env);
            saver.Ok() && error == o.result && saver.Abstract() == Run(old(saver.Abstract()), o.evs)
  {
    hide Run, RoundRun, RoundsRun, Saver.Ok, Flushes, OnlyEnv, Failed;
    ghost var st0 := saver.Abstract();
    OkMeans(saver);
    ghost var whole := RoundsRun(st0, rounds, env);
    ghost var evs := [];
    RunNone(st0);
    assert rounds[0..] == rounds;
    for i := 0 to |rounds|
      invariant saver.Ok() && BlockState.Valid(saver.Abstract()) && saver.Abstract() == Run(st0, evs)
      invariant whole == Then(evs, RoundsRun(saver.Abstract(), rounds[i..], env))
    {
      ghost var st := saver.Abstract();
      ghost var o := RoundRun(st, rounds[i], env);
      RoundsUnfold(st, rounds[i..], env);
      error := DoRound(saver, rounds[i], env);
      OkMeans(saver);
      RunConcat(st0, evs, o.evs);
      if error {
        return;
      }
      assert rounds[i..][1..] == rounds[i + 1..];
      ThenConcat(evs, o.evs, RoundsRun(saver.Abstract(), rounds[i + 1..], env));
      evs := evs + o.evs;
    }
    RoundsUnfold(saver.Abstract(), rounds[|rounds|..], env);
    ThenConcat(evs, [], Ran([], false));
    return false;
  }

  lemma RoundsUnfold(st: State, rounds: seq<Round>, env: Environment)
    requires BlockState.Valid(st) && Flushes(env)
    ensures if rounds == [] then RoundsRun(st, rounds, env) == Ran([], false)
            else
              var o := RoundRun(st, rounds[0], env);
              && BlockState.Valid(Run(st, o.evs))
              && RoundsRun(st, rounds, env) == if o.result then o else Then(o.evs, RoundsRun(Run(st, o.evs), rounds[1..], env))
  {
    hide Run, RoundRun, Flushes, BlockState.Valid;
    if rounds != [] {
      RoundKeeps(st, rounds[0], env);
    }
  }

  /** Stage 1, the rounds, and what happens until stage 3. */
  method SendBeforeStage3(drives: seq<Drive>, sharedBase: bool, rounds: seq<Round>, last: seq<Event>, env: Environment)
    returns (saver: Saver, error: bool)
    requires S.ValidNames(Names(Migrated(drives))) && Flushes(env) && WellSized(drives)
    requires OnlyEnv(last) && OnlyEnvRounds(rounds)
    ensures fresh(saver) && saver.Ok() && saver.names == Names(Migrated(drives))
    ensures BlockState.Valid(StartState(drives, sharedBase))
    ensures var o := BeforeStage3(StartState(drives, sharedBase), rounds, last, env);
            error == o.result && saver.Abstract() == Run(StartState(drives, sharedBase), o.evs)
  {
    hide Run, Step, Initial, Saver.Ok, S.ValidNames, Flushes, RoundsRun, Migrated, Names, StartDevs, OnlyEnv, OnlyEnvRounds;
    ghost var st0 := StartState(drives, sharedBase);
    StartValid(drives, sharedBase);
    saver := new Saver(drives, sharedBase);
    InitialIs(saver.Abstract(), st0);
    saver.EndSection();
    EndSectionKeeps(st0);
    RunOne(st0, Event.EndSection);
    ghost var a := RoundsRun(saver.Abstract(), rounds, env);
    error := DoRounds(saver, rounds, env);
    ghost var evs := [Event.EndSection] + a.evs;
    RunConcat(st0, [Event.EndSection], a.evs);
    assert evs + [] == evs;
    if !error {
      saver.RunEnvironment(last);
      RunConcat(st0, evs, last);
    }
  }

  lemma InitialIs(st: State, st': State)
    requires Initial(st) && Initial(st') && st.devs == st'.devs
    ensures st == st'
  {}

  /** Stages 1 to 3.  The source's assertion that no read is in flight in stage 3 is the check before it. */
  method Send(drives: seq<Drive>, sharedBase: bool, rounds: seq<Round>, last: seq<Event>, env: Environment,
              limits: seq<bool>, mem: seq<Byte>)
    returns (saver: Saver, error: bool)
    requires S.ValidNames(Names(Migrated(drives))) && Flushes(env) && WellSized(drives) && |mem| == 1048576
    requires OnlyEnv(last) && OnlyEnvRounds(rounds)
    ensures fresh(saver) && saver.names == Names(Migrated(drives))
    ensures error == RunOf(drives, sharedBase, rounds, last, env, limits).result
    ensures var st := Reached(drives, sharedBase, rounds, last, env, limits);
            if error then BlockInvariant.Failed(st.queue) || st.submitted != 0
            else st.pending == []
                 && S.AllNamed(saver.names, S.Closing(SendAll(st, mem).out))
                 && saver.stream == S.StreamBytes(saver.names, S.Closing(SendAll(st, mem).out))
  {
    hide Run, Initial, Saver.Ok, BlockState.Valid, S.ValidNames, S.AllNamed, S.StreamBytes, Flushes, SendAll, Migrated, Names, StartDevs, OnlyEnv, OnlyEnvRounds, BeforeStage3, FlushRun, Failed, WellSized;
    ghost var st0 := StartState(drives, sharedBase);
    saver, error := SendBeforeStage3(drives, sharedBase, rounds, last, env);
    MigrationRunKeeps(st0, rounds, last, env, limits);
    if error {
      return;
    }
    if saver.submitted != 0 {
      return saver, true;
    }
    ghost var st := saver.Abstract();
    error := saver.SaveStage3(limits, mem);
    RunConcat(st0, BeforeStage3(st0, rounds, last, env).evs, FlushRun(st, limits).evs);
  }

  /** The stream is loaded section by section. */
  method Receive(devices: S.Devices, stream: seq<Byte>) returns (ok: bool, result: S.Devices)
    ensures match S.LoadAll(devices, stream)
            case Failed => !ok
            case Loaded(m, _) => ok && result == m
  {
    hide S.LoadSection;
    var receiver := new R.Receiver(devices);
    var rest := stream;
    ok := true;
    while rest != []
      invariant fresh(receiver) && S.LoadAll(devices, stream) == S.LoadAll(receiver.devices, rest)
      decreases |rest|
    {
      ok, rest := receiver.Load(rest);
      if !ok {
        return ok, devices;
      }
    }
    return true, receiver.devices;
  }

  /** Same-chunk reads finished in order, the bulk phase was over, and stage 3 found the guest stopped
      and could flush its queue. */
  ghost predicate Clean(drives: seq<Drive>, sharedBase: bool, rounds: seq<Round>, last: seq<Event>, env: Environment,
                        limits: seq<bool>)
    requires WellSized(drives) && Flushes(env)
  {
    var st := Reached(drives, sharedBase, rounds, last, env, limits);
    StartValid(drives, sharedBase);
    && !RunOf(drives, sharedBase, rounds, last, env, limits).result
    && ScriptsOrderly(StartState(drives, sharedBase), rounds, last, env)
    && st.bulkCompleted && Drained(st)
  }

  /** A migration: one that fails says so, and a clean one succeeds and leaves the receiver with the
      source's disks as they were when stage 3 began, and its other devices as they were. */
  method Migrate(drives: seq<Drive>, sharedBase: bool, rounds: seq<Round>, last: seq<Event>, env: Environment,
                 limits: seq<bool>, mem: seq<Byte>, m: S.Devices, ghost dst: seq<seq<Byte>>)
    returns (ok: bool, result: S.Devices)
    requires S.ValidNames(Names(Migrated(drives))) && Flushes(env) && WellSized(drives) && |mem| == 1048576
    requires OnlyEnv(last) && OnlyEnvRounds(rounds)
    ensures RunOf(drives, sharedBase, rounds, last, env, limits).result ==> !ok
    ensures var st := Reached(drives, sharedBase, rounds, last, env, limits);
            Clean(drives, sharedBase, rounds, last, env, limits)
            && Prepared(StartState(drives, sharedBase), dst) && S.Holds(Names(Migrated(drives)), m, dst) && S.Addressable(Sizes(st.devs))
            ==> ok && S.Holds(Names(Migrated(drives)), result, Disks(st.devs)) && S.Elsewhere(Names(Migrated(drives)), m, result)
  {
    hide *;
    var saver, error := Send(drives, sharedBase, rounds, last, env, limits, mem);
    CleanMeans(drives, sharedBase, rounds, last, env, limits);
    if error {
      return false, m;
    }
    ok, result := Receive(m, saver.stream);
    ghost var st := Reached(drives, sharedBase, rounds, last, env, limits);
    if Clean(drives, sharedBase, rounds, last, env, limits) && Prepared(StartState(drives, sharedBase), dst)
       && S.Holds(saver.names, m, dst) && S.Addressable(Sizes(st.devs)) {
      S.StreamDelivers(saver.names, StartState(drives, sharedBase), RunOf(drives, sharedBase, rounds, last, env, limits).evs, mem, m, dst);
      DeliveredMeans(saver.names, m, S.LoadAll(m, saver.stream), Disks(st.devs));
    }
  }

  lemma CleanMeans(drives: seq<Drive>, sharedBase: bool, rounds: seq<Round>, last: seq<Event>, env: Environment, limits: seq<bool>)
    requires WellSized(drives) && Flushes(env)
    ensures
      var st0 := StartState(drives, sharedBase);
      var o := RunOf(drives, sharedBase, rounds, last, env, limits);
      var st := Reached(drives, sharedBase, rounds, last, env, limits);
      && Initial(st0) && st == Run(st0, o.evs)
      && (Clean(drives, sharedBase, rounds, last, env, limits) <==> !o.result && OrderlyRun(st0, o.evs) && st.bulkCompleted && Drained(st))
  {
    hide Run, Initial, OrderlyRun, ScriptsOrderly, MigrationRun, WellSized, Flushes, Migrated, BlockState.Valid, Drained;
    StartValid(drives, sharedBase);
    MigrationRunKeeps(StartState(drives, sharedBase), rounds, last, env, limits);
  }

  lemma DeliveredMeans(names: seq<seq<Byte>>, m: S.Devices, o: S.Outcome, disks: seq<seq<Byte>>)
    requires S.Delivered(names, m, o, disks)
    ensures o.Loaded? && S.Holds(names, o.devices, disks) && S.Elsewhere(names, m, o.devices)
  {}
}
