/** A whole RAM migration in code: the sender's calls with guest writes in between, and the receiver's
    calls on the bytes they wrote. */
module RamEndToEnd {
  import opened Words
  import opened RamState
  import opened RamStream
  import M = RamMigration
  import S = RamSaver
  import R = RamReceiver

  /** Guest writes and stage 2 calls, in turn. */
  method SendEvents(saver: S.Saver, events: seq<M.Event>)
    requires M.Ready(saver.State())
    modifies saver, saver.physDirty
    ensures saver.physDirty == old(saver.physDirty) && M.Ready(saver.State())
    ensures var s := M.Run(old(saver.State()), events); saver.State() == s.ram && saver.out == old(saver.out) + s.out
  {
    hide M.Run, M.Handle, M.GuestWrite, M.SectionBody, M.SaveLive, Valid;
    ghost var sent := [];
    ghost var r := saver.State();
    assert events[0..] == events;
    M.RunBegins(r, events);
    assert saver.out == saver.out + [];
    for i := 0 to |events|
      invariant saver.physDirty == old(saver.physDirty) && M.Ready(saver.State()) && saver.out == old(saver.out) + sent
      invariant M.RunFrom(r, events, saver.State(), events[i..], sent)
    {
      ghost var cur := saver.State();
      M.RunStep(r, events, cur, events[i..], sent);
      assert events[i..][1..] == events[i + 1..];
      M.ReadyMeans(cur);
      match events[i] {
        case Write(p, data) =>
          M.HandleWrite(cur, p, data);
          if InRange(saver.blocks, p) {
            saver.GuestStore(p, data);
          }
        case Iterate(limits) =>
          M.HandleIterate(cur, limits);
          saver.SaveLive(2, limits);
      }
      Assoc(old(saver.out), sent, M.Handle(cur, events[i]).out);
      sent := sent + M.Handle(cur, events[i]).out;
    }
    assert events[|events|..] == [];
    M.RunEnds(r, events, saver.State(), sent);
  }

  /** Stage 1, the events, and stage 3. */
  method Send(blocks: seq<RamBlock>, physDirty: array<bv8>, first: seq<bool>, events: seq<M.Event>, last: seq<bool>)
    returns (saver: S.Saver)
    requires ValidBlocks(blocks, physDirty.Length)
    modifies physDirty
    ensures fresh(saver) && saver.physDirty == physDirty
    ensures var m := M.Migrate(Ram(blocks, old(physDirty[..]), -1, 0), first, events, last);
            saver.State() == m.ram && saver.out == m.out
  {
    hide M.Run, M.SectionBody, M.SaveLive;
    saver := new S.Saver(blocks, physDirty);
    ghost var r := saver.State();
    saver.SaveLive(1, first);
    ghost var a := M.SaveLive(r, 1, first);
    assert saver.out == a.out;
    SendEvents(saver, events);
    ghost var b := M.Run(a.ram, events);
    saver.SaveLive(3, last);
    ghost var c := M.SaveLive(b.ram, 3, last);
    Assoc(a.out, b.out, c.out);
  }

  /** One ram_load for each stage 2 call. */
  method LoadEvents(receiver: R.Receiver, stream: seq<Byte>, events: seq<M.Event>) returns (status: R.Status, rest: seq<Byte>)
    requires ValidLoader(receiver.State())
    modifies receiver
    ensures match M.LoadRun(old(receiver.State()), stream, events)
            case Failed => status == R.Error
            case Undefined => status == R.Wild
            case Loaded(l, r) => status == R.Ok && receiver.State() == l && rest == r && ValidLoader(l)
  {
    hide LoadSection;
    rest := stream;
    assert events[0..] == events;
    for i := 0 to |events|
      invariant ValidLoader(receiver.State())
      invariant M.LoadRun(old(receiver.State()), stream, events) == M.LoadRun(receiver.State(), rest, events[i..])
    {
      assert events[i..][1..] == events[i + 1..];
      if events[i].Iterate? {
        ghost var l := receiver.State();
        M.SectionValid(l, rest);
        status, rest := receiver.Load(rest);
        if status != R.Ok {
          return;
        }
      }
    }
    assert events[|events|..] == [];
    status := R.Ok;
  }

  /** The receiver's calls. */
  method Receive(blocks: seq<RamBlock>, stream: seq<Byte>, events: seq<M.Event>)
    returns (receiver: R.Receiver, status: R.Status, rest: seq<Byte>)
    requires ValidLoader(Loader(blocks, -1))
    ensures fresh(receiver)
    ensures match M.LoadMigration(Loader(blocks, -1), stream, events)
            case Failed => status == R.Error
            case Undefined => status == R.Wild
            case Loaded(l, r) => status == R.Ok && receiver.State() == l && rest == r
  {
    hide LoadSection, M.LoadRun, ValidLoader;
    receiver := new R.Receiver(blocks);
    M.SectionValid(receiver.State(), stream);
    status, rest := receiver.Load(stream);
    if status != R.Ok {
      return;
    }
    status, rest := LoadEvents(receiver, rest, events);
    if status != R.Ok {
      return;
    }
    status, rest := receiver.Load(rest);
  }

  /** A migration: the receiver accepts every byte the sender wrote and ends with the source's RAM as it
      was when stage 3 began, whatever it held before. */
  method Migrate(blocks: seq<RamBlock>, physDirty: array<bv8>, first: seq<bool>, events: seq<M.Event>, last: seq<bool>,
                 target: seq<RamBlock>)
    returns (saver: S.Saver, receiver: R.Receiver, status: R.Status, rest: seq<Byte>)
    requires ValidBlocks(blocks, physDirty.Length) && ValidLoader(Loader(target, -1)) && Compatible(blocks, Loader(target, -1))
    modifies physDirty
    ensures fresh(saver) && fresh(receiver) && saver.physDirty == physDirty
    ensures saver.State() == M.Migrate(Ram(blocks, old(physDirty[..]), -1, 0), first, events, last).ram
    ensures status == R.Ok && rest == [] && M.Arrived(saver.State(), receiver.State())
  {
    hide M.Migrate, M.LoadMigration, M.Arrived, ValidBlocks, ValidLoader, Compatible;
    M.MigrationDelivers(Ram(blocks, physDirty[..], -1, 0), Loader(target, -1), first, events, last);
    saver := Send(blocks, physDirty, first, events, last);
    receiver, status, rest := Receive(target, saver.out, events);
  }
}
