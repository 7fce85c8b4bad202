/** The block section of the migration stream: records as bytes, and what block_load does with
    arbitrary bytes. */
module BlockStream {
  import opened Common
  import opened Words
  import opened RamState
  import R = RamStream
  import opened BlockState
  import opened BlockInvariant
  import opened BlockMigration

  const FLAG_DEVICE_BLOCK: nat := 0x01
  const FLAG_EOS: nat := 0x02
  const FLAG_PROGRESS: nat := 0x04

  // ----- sender

  function Sectors(n: nat): nat {
    n * 512
  }

  /** A number above the nine flag bits. */
  function Word(n: nat, flag: nat): (s: seq<Byte>)
    ensures |s| == 8
  {
    BigEndian(BitOr(Sectors(n), flag), 8)
  }

  ghost predicate ValidNames(names: seq<seq<Byte>>) {
    && (forall d :: 0 <= d < |names| ==> ValidId(names[d]))
    && forall d, e :: 0 <= d < e < |names| ==> names[d] != names[e]
  }

  /** blk_send */
  function BlockBytes(names: seq<seq<Byte>>, b: Block): seq<Byte>
    requires b.dev < |names| && ValidId(names[b.dev])
  {
    Word(b.sector, FLAG_DEVICE_BLOCK) + (R.Name(names[b.dev]) + b.buf)
  }

  predicate Named(names: seq<seq<Byte>>, r: Record) {
    r.Chunk? ==> r.block.dev < |names| && ValidId(names[r.block.dev])
  }

  function RecordBytes(names: seq<seq<Byte>>, r: Record): seq<Byte>
    requires Named(names, r)
  {
    match r
    case Chunk(b) => BlockBytes(names, b)
    case Progress(percent) => Word(percent, FLAG_PROGRESS)
    case Eos => Word(0, FLAG_EOS)
  }

  predicate AllNamed(names: seq<seq<Byte>>, out: seq<Record>) {
    forall i :: 0 <= i < |out| ==> Named(names, out[i])
  }

  function StreamBytes(names: seq<seq<Byte>>, out: seq<Record>): seq<Byte>
    requires AllNamed(names, out)
    decreases |out|
  {
    if out == [] then [] else RecordBytes(names, out[0]) + StreamBytes(names, out[1..])
  }

  lemma BytesAssoc(a: seq<Byte>, b: seq<Byte>, c: seq<Byte>)
    ensures a + b + c == a + (b + c)
  {}

  lemma {:induction false} StreamAppend(names: seq<seq<Byte>>, out: seq<Record>, r: Record)
    requires AllNamed(names, out) && Named(names, r)
    ensures StreamBytes(names, out + [r]) == StreamBytes(names, out) + RecordBytes(names, r)
    decreases |out|
  {
    hide RecordBytes, Named;
    if out == [] {
      assert out + [r] == [r] && [r][1..] == [];
      assert RecordBytes(names, r) + [] == [] + RecordBytes(names, r);
    } else {
      calc {
        StreamBytes(names, out + [r]);
        { assert (out + [r])[1..] == out[1..] + [r]; }
        RecordBytes(names, out[0]) + StreamBytes(names, out[1..] + [r]);
        { StreamAppend(names, out[1..], r); }
        RecordBytes(names, out[0]) + (StreamBytes(names, out[1..]) + RecordBytes(names, r));
        { BytesAssoc(RecordBytes(names, out[0]), StreamBytes(names, out[1..]), RecordBytes(names, r)); }
        StreamBytes(names, out) + RecordBytes(names, r);
      }
    }
  }

  // ----- receiver

  type Devices = map<seq<Byte>, seq<Byte>>

  datatype Outcome = Loaded(devices: Devices, rest: seq<Byte>) | Failed

  datatype RecordOutcome = Parsed(devices: Devices, rest: seq<Byte>, eos: bool) | BadRecord

  /** The addr of a 64-bit word, an arithmetic shift of a signed value. */
  function Address(v: nat): int
    requires v < 0x1_0000_0000_0000_0000
  {
    (if v < 0x8000_0000_0000_0000 then v else v - 0x1_0000_0000_0000_0000) / 512
  }

  /** The write of one chunk: refused outside the disk. */
  function WriteChunk(disk: seq<Byte>, addr: int, buf: seq<Byte>): Option<seq<Byte>>
    requires |buf| == 1048576
  {
    var total := |disk| / 512;
    if total == 0 || addr < 0 || addr > total then None
    else
      var nr := if total - addr < 2048 then total - addr else 2048;
      Some(Spliced(disk, Sectors(addr), buf[..Sectors(nr)]))
  }

  /** A DEVICE_BLOCK record. */
  function LoadChunk(m: Devices, addr: int, flags: nat, s: seq<Byte>): (o: RecordOutcome)
    ensures o.Parsed? ==> |o.rest| <= |s|
  {
    match R.ReadName(s)
    case None => BadRecord
    case Some((name, rest)) =>
      if name !in m || |rest| < 1048576 then BadRecord
      else match WriteChunk(m[name], addr, rest[..1048576])
        case None => BadRecord
        case Some(disk) => Parsed(m[name := disk], rest[1048576..], HasFlag(flags, FLAG_EOS))
  }

  function Dispatch(m: Devices, addr: int, flags: nat, s: seq<Byte>): (o: RecordOutcome)
    ensures o.Parsed? ==> |o.rest| <= |s|
  {
    if HasFlag(flags, FLAG_DEVICE_BLOCK) then LoadChunk(m, addr, flags, s)
    else if HasFlag(flags, FLAG_PROGRESS) || HasFlag(flags, FLAG_EOS) then Parsed(m, s, HasFlag(flags, FLAG_EOS))
    else BadRecord
  }

  lemma WordBound(s: seq<Byte>)
    requires |s| == 8
    ensures FromBigEndian(s) < 0x1_0000_0000_0000_0000
  {
    FromBigEndianBound(s);
    R.Pow256Of8();
  }

  lemma {:induction false} FromBigEndianBound(s: seq<Byte>)
    ensures FromBigEndian(s) < Pow256(|s|)
  {
    if s != [] {
      FromBigEndianBound(s[..|s| - 1]);
    }
  }

  /** One iteration of block_load. */
  function LoadRecord(m: Devices, s: seq<Byte>): (o: RecordOutcome)
    ensures o.Parsed? ==> |o.rest| < |s|
  {
    if |s| < 8 then BadRecord
    else
      var v := FromBigEndian(s[..8]);
      WordBound(s[..8]);
      Dispatch(m, Address(v), v % 512, s[8..])
  }

  /** One call of block_load. */
  function LoadSection(m: Devices, s: seq<Byte>): (o: Outcome)
    ensures o.Loaded? ==> |o.rest| < |s|
    decreases |s|
  {
    match LoadRecord(m, s)
    case BadRecord => Failed
    case Parsed(m', rest, eos) => if eos then Loaded(m', rest) else LoadSection(m', rest)
  }

  /** block_load called until the stream is used up. */
  function LoadAll(m: Devices, s: seq<Byte>): (o: Outcome)
    decreases |s|
  {
    if s == [] then Loaded(m, s)
    else match LoadSection(m, s)
      case Failed => Failed
      case Loaded(m', rest) => LoadAll(m', rest)
  }

  // ----- decoding what was encoded

  lemma Pow2Of9()
    ensures Pow2(9) == 512
  {
    assert Pow2(5) == 32;
  }

  /** Number and flag survive the packed word. */
  lemma WordDecodes(n: nat, flag: nat)
    requires n < 0x40_0000_0000_0000 && flag < 512
    ensures
      var v := FromBigEndian(Word(n, flag));
      v < 0x8000_0000_0000_0000 && Address(v) == n && v % 512 == flag
  {
    Pow2Of9();
    assert n * Pow2(9) == Sectors(n);
    OrAligned(n, 9, flag);
    R.Pow256Of8();
    BigEndianRoundTrip(Sectors(n) + flag, 8);
  }

  lemma LoadOfWord(m: Devices, n: nat, flag: nat, rest: seq<Byte>)
    requires n < 0x40_0000_0000_0000 && flag < 512
    ensures LoadRecord(m, Word(n, flag) + rest) == Dispatch(m, n, flag, rest)
  {
    hide Dispatch;
    var s := Word(n, flag) + rest;
    assert s[..8] == Word(n, flag) && s[8..] == rest;
    WordDecodes(n, flag);
  }

  lemma ChunkBody(m: Devices, name: seq<Byte>, addr: nat, buf: seq<Byte>, rest: seq<Byte>)
    requires ValidId(name) && name in m && |buf| == 1048576
    requires |m[name]| % 512 == 0 && Sectors(addr) < |m[name]|
    ensures
      var total := |m[name]| / 512;
      var nr := if total - addr < 2048 then total - addr else 2048;
      && nr >= 0 && Sectors(addr) + Sectors(nr) <= |m[name]|
      && LoadChunk(m, addr, FLAG_DEVICE_BLOCK, R.Name(name) + (buf + rest))
         == Parsed(m[name := Spliced(m[name], Sectors(addr), buf[..Sectors(nr)])], rest, false)
  {
    R.ReadNameOfName(name, buf + rest);
    assert (buf + rest)[..1048576] == buf && (buf + rest)[1048576..] == rest;
  }

  /** The record stays inside its device. */
  predicate Applies(names: seq<seq<Byte>>, m: Devices, r: Record) {
    r.Chunk? ==>
      var b := r.block;
      && b.dev < |names| && names[b.dev] in m
      && 512 * b.nr <= |b.buf| && 512 * b.sector + 512 * b.nr <= |m[names[b.dev]]|
  }

  /** The devices after a record. */
  function Applied(names: seq<seq<Byte>>, m: Devices, r: Record): Devices
    requires Applies(names, m, r)
  {
    match r
    case Chunk(b) => m[names[b.dev] := Spliced(m[names[b.dev]], 512 * b.sector, b.buf[..512 * b.nr])]
    case _ => m
  }

  /** The record fits its device, whose disk is whole sectors and addressable in an int64_t. */
  predicate Fitting(names: seq<seq<Byte>>, m: Devices, r: Record) {
    match r
    case Chunk(b) =>
      && b.dev < |names| && ValidId(names[b.dev]) && names[b.dev] in m && |b.buf| == 1048576
      && var size := |m[names[b.dev]]|;
      && size % 512 == 0 && size < 0x8000_0000_0000_0000 && 512 * b.sector < size
      && b.nr == if size / 512 - b.sector < 2048 then size / 512 - b.sector else 2048
    case Progress(percent) => percent <= 100
    case Eos => true
  }

  lemma ChunkLoads(names: seq<seq<Byte>>, m: Devices, b: Block, rest: seq<Byte>)
    requires Fitting(names, m, Chunk(b))
    ensures Applies(names, m, Chunk(b))
    ensures LoadRecord(m, BlockBytes(names, b) + rest) == Parsed(Applied(names, m, Chunk(b)), rest, false)
  {
    hide Word, LoadRecord, LoadChunk, R.Name;
    var name := names[b.dev];
    var tail := R.Name(name) + (b.buf + rest);
    calc {
      BlockBytes(names, b) + rest;
      { BytesAssoc(Word(b.sector, FLAG_DEVICE_BLOCK), R.Name(name) + b.buf, rest); BytesAssoc(R.Name(name), b.buf, rest); }
      Word(b.sector, FLAG_DEVICE_BLOCK) + tail;
    }
    LoadOfWord(m, b.sector, FLAG_DEVICE_BLOCK, tail);
    ChunkBody(m, name, b.sector, b.buf, rest);
  }

  /** Every record decodes to exactly its effect, and is consumed exactly. */
  lemma RecordLoads(names: seq<seq<Byte>>, m: Devices, r: Record, rest: seq<Byte>)
    requires Fitting(names, m, r)
    ensures Named(names, r) && Applies(names, m, r)
    ensures LoadRecord(m, RecordBytes(names, r) + rest) == Parsed(Applied(names, m, r), rest, r.Eos?)
  {
    hide Word, LoadRecord, BlockBytes;
    match r
    case Chunk(b) => ChunkLoads(names, m, b, rest);
    case Progress(percent) => LoadOfWord(m, percent, FLAG_PROGRESS, rest);
    case Eos => LoadOfWord(m, 0, FLAG_EOS, rest);
  }

  // ----- the whole stream

  /** The named devices hold the disks. */
  ghost predicate Holds(names: seq<seq<Byte>>, m: Devices, dst: seq<seq<Byte>>) {
    |names| == |dst| && forall d :: 0 <= d < |names| ==> names[d] in m && m[names[d]] == dst[d]
  }

  /** Devices of other names are as they were. */
  ghost predicate Elsewhere(names: seq<seq<Byte>>, m: Devices, m': Devices) {
    m'.Keys == m.Keys && forall name :: name in m && name !in names ==> m'[name] == m[name]
  }

  /** The disks are whole sectors and addressable. */
  predicate Addressable(sizes: seq<nat>) {
    forall d :: 0 <= d < |sizes| ==> sizes[d] % 512 == 0 && sizes[d] < 0x8000_0000_0000_0000
  }

  /** A chunk of the length the receiver will compute. */
  predicate WellSized(sizes: seq<nat>, r: Record) {
    match r
    case Chunk(b) =>
      && b.dev < |sizes| && |b.buf| == 1048576 && 512 * b.sector < sizes[b.dev]
      && b.nr == if sizes[b.dev] / 512 - b.sector < 2048 then sizes[b.dev] / 512 - b.sector else 2048
    case Progress(percent) => percent <= 100
    case Eos => true
  }

  predicate AllWellSized(sizes: seq<nat>, out: seq<Record>) {
    forall i :: 0 <= i < |out| ==> WellSized(sizes, out[i])
  }

  lemma ApplyChunk(names: seq<seq<Byte>>, sizes: seq<nat>, m: Devices, dst: seq<seq<Byte>>, b: Block)
    requires ValidNames(names) && Addressable(sizes) && HasSizes(sizes, dst) && Holds(names, m, dst) && WellSized(sizes, Chunk(b))
    ensures Fitting(names, m, Chunk(b)) && Applies(names, m, Chunk(b)) && Fits(sizes, b)
    ensures Holds(names, Applied(names, m, Chunk(b)), Store(dst, b)) && HasSizes(sizes, Store(dst, b))
    ensures Elsewhere(names, m, Applied(names, m, Chunk(b)))
  {
    assert names[b.dev] in m && m[names[b.dev]] == dst[b.dev];
    assert sizes[b.dev] % 512 == 0;
    var m' := Applied(names, m, Chunk(b));
    assert m'.Keys == m.Keys;
    forall d | 0 <= d < |names| ensures names[d] in m' && m'[names[d]] == Store(dst, b)[d] {
      assert names[d] in m && m[names[d]] == dst[d];
    }
  }

  lemma ElsewhereTwice(names: seq<seq<Byte>>, a: Devices, b: Devices, c: Devices)
    requires Elsewhere(names, a, b) && Elsewhere(names, b, c)
    ensures Elsewhere(names, a, c)
  {}

  /** What a stream of records ending a section does: the rest of the current section and all
      that follow. */
  function LoadRecords(m: Devices, s: seq<Byte>): Outcome
    decreases |s|, 1
  {
    match LoadSection(m, s)
    case Failed => Failed
    case Loaded(m', rest) => LoadAll(m', rest)
  }

  lemma LoadRecordsStep(m: Devices, s: seq<Byte>, m': Devices, rest: seq<Byte>, eos: bool)
    requires LoadRecord(m, s) == Parsed(m', rest, eos)
    ensures LoadRecords(m, s) == if eos then LoadAll(m', rest) else LoadRecords(m', rest)
  {
    hide LoadRecord;
  }

  lemma LoadAllIsRecords(m: Devices, s: seq<Byte>)
    ensures s != [] ==> LoadAll(m, s) == LoadRecords(m, s)
  {
    hide LoadRecord, LoadSection;
  }

  lemma NonEmpty(names: seq<seq<Byte>>, out: seq<Record>)
    requires AllNamed(names, out) && out != []
    ensures StreamBytes(names, out) != []
  {
    hide Word, StreamBytes;
    assert Named(names, out[0]);
    assert |RecordBytes(names, out[0])| >= 8;
    Prefix(names, out);
  }

  lemma Prefix(names: seq<seq<Byte>>, out: seq<Record>)
    requires AllNamed(names, out) && out != []
    ensures Named(names, out[0]) && AllNamed(names, out[1..])
    ensures StreamBytes(names, out) == RecordBytes(names, out[0]) + StreamBytes(names, out[1..])
  {
    hide RecordBytes, Named;
  }

  lemma SizedIsNamed(names: seq<seq<Byte>>, sizes: seq<nat>, out: seq<Record>)
    requires ValidNames(names) && |names| == |sizes| && AllWellSized(sizes, out)
    ensures AllNamed(names, out)
  {
    forall i | 0 <= i < |out| ensures Named(names, out[i]) {
      assert WellSized(sizes, out[i]);
    }
  }

  lemma SizedFit(sizes: seq<nat>, b: Block)
    requires Addressable(sizes) && WellSized(sizes, Chunk(b))
    ensures Fits(sizes, b)
  {
    assert sizes[b.dev] % 512 == 0;
  }

  lemma {:induction false} SizedAllFit(sizes: seq<nat>, out: seq<Record>)
    requires Addressable(sizes) && AllWellSized(sizes, out)
    ensures AllFit(sizes, Sent(out))
  {
    hide Addressable, Fits, WellSized;
    if out != [] {
      assert WellSized(sizes, out[0]);
      if out[0].Chunk? {
        SizedFit(sizes, out[0].block);
      }
      SizedAllFit(sizes, out[1..]);
    }
  }

  /** The outcome of loading a stream that carries these blocks. */
  ghost predicate Delivered(names: seq<seq<Byte>>, m: Devices, o: Outcome, disks: seq<seq<Byte>>) {
    o.Loaded? && o.rest == [] && Holds(names, o.devices, disks) && Elsewhere(names, m, o.devices)
  }

  lemma DeliveredLater(names: seq<seq<Byte>>, m: Devices, m': Devices, o: Outcome, disks: seq<seq<Byte>>)
    requires Elsewhere(names, m, m') && Delivered(names, m', o, disks)
    ensures Delivered(names, m, o, disks)
  {
    ElsewhereTwice(names, m, m', o.devices);
  }

  function StoreRecord(sizes: seq<nat>, dst: seq<seq<Byte>>, r: Record): seq<seq<Byte>>
    requires HasSizes(sizes, dst) && (r.Chunk? ==> Fits(sizes, r.block))
  {
    if r.Chunk? then Store(dst, r.block) else dst
  }

  lemma ReplaySplit(sizes: seq<nat>, dst: seq<seq<Byte>>, out: seq<Record>)
    requires out != [] && HasSizes(sizes, dst) && AllFit(sizes, Sent(out)) && AllFit(sizes, Sent(out[1..]))
    requires out[0].Chunk? ==> Fits(sizes, out[0].block) && HasSizes(sizes, Store(dst, out[0].block))
    ensures HasSizes(sizes, StoreRecord(sizes, dst, out[0]))
    ensures Replay(sizes, dst, Sent(out)) == Replay(sizes, StoreRecord(sizes, dst, out[0]), Sent(out[1..]))
  {
    hide Fits, Store;
    var tail := Sent(out[1..]);
    if out[0].Chunk? {
      assert Sent(out) == [out[0].block] + tail;
      assert Sent(out)[1..] == tail;
    } else {
      assert Sent(out) == [] + tail == tail;
    }
  }

  lemma ApplyRecord(names: seq<seq<Byte>>, sizes: seq<nat>, m: Devices, dst: seq<seq<Byte>>, r: Record)
    requires ValidNames(names) && Addressable(sizes) && HasSizes(sizes, dst) && Holds(names, m, dst) && WellSized(sizes, r)
    ensures Fitting(names, m, r) && Applies(names, m, r) && (r.Chunk? ==> Fits(sizes, r.block) && HasSizes(sizes, Store(dst, r.block)))
    ensures Holds(names, Applied(names, m, r), StoreRecord(sizes, dst, r)) && HasSizes(sizes, StoreRecord(sizes, dst, r))
    ensures Elsewhere(names, m, Applied(names, m, r))
  {
    if r.Chunk? {
      ApplyChunk(names, sizes, m, dst, r.block);
    }
  }

  lemma {:induction false} RecordsLoad(names: seq<seq<Byte>>, sizes: seq<nat>, m: Devices, dst: seq<seq<Byte>>, out: seq<Record>)
    requires ValidNames(names) && Addressable(sizes) && HasSizes(sizes, dst) && Holds(names, m, dst)
    requires AllWellSized(sizes, out) && AllNamed(names, out) && AllFit(sizes, Sent(out)) && out != [] && out[|out| - 1].Eos?
    ensures Delivered(names, m, LoadRecords(m, StreamBytes(names, out)), Replay(sizes, dst, Sent(out)))
    decreases |out|
  {
    hide ValidNames, Addressable, HasSizes, Holds, WellSized, Named, Fits, Elsewhere, Store, StoreRecord, Fitting, Applies, Applied;
    hide RecordBytes, LoadRecord, LoadRecords, LoadAll, Replay, Sent;
    var r, later := out[0], out[1..];
    var s := StreamBytes(names, later);
    assert WellSized(sizes, r) && AllWellSized(sizes, later);
    SizedAllFit(sizes, later);
    ApplyRecord(names, sizes, m, dst, r);
    var m', dst' := Applied(names, m, r), StoreRecord(sizes, dst, r);
    RecordLoads(names, m, r, s);
    LoadRecordsStep(m, StreamBytes(names, out), m', s, r.Eos?);
    ReplaySplit(sizes, dst, out);
    if later == [] {
      LastSection(names, sizes, m', dst');
    } else {
      RecordsLoad(names, sizes, m', dst', later);
      NonEmpty(names, later);
      LoadAllIsRecords(m', s);
    }
    DeliveredLater(names, m, m', LoadRecords(m, StreamBytes(names, out)), Replay(sizes, dst, Sent(out)));
  }

  lemma LastSection(names: seq<seq<Byte>>, sizes: seq<nat>, m: Devices, dst: seq<seq<Byte>>)
    requires HasSizes(sizes, dst) && Holds(names, m, dst)
    ensures AllFit(sizes, Sent([])) && Delivered(names, m, LoadAll(m, []), Replay(sizes, dst, Sent([])))
  {}

  /** Loading a stream of whole sections replays exactly the blocks it carries, onto the devices
      of the same names and nothing else. */
  lemma StreamLoads(names: seq<seq<Byte>>, sizes: seq<nat>, m: Devices, dst: seq<seq<Byte>>, out: seq<Record>)
    requires ValidNames(names) && |names| == |sizes| && Addressable(sizes) && HasSizes(sizes, dst) && Holds(names, m, dst)
    requires AllWellSized(sizes, out) && out != [] && out[|out| - 1].Eos?
    ensures AllNamed(names, out) && AllFit(sizes, Sent(out))
    ensures Delivered(names, m, LoadAll(m, StreamBytes(names, out)), Replay(sizes, dst, Sent(out)))
  {
    hide *;
    SizedIsNamed(names, sizes, out);
    SizedAllFit(sizes, out);
    RecordsLoad(names, sizes, m, dst, out);
    NonEmpty(names, out);
    LoadAllIsRecords(m, StreamBytes(names, out));
  }

  lemma ValidIsSized(devs: seq<Dev>, out: seq<Record>)
    requires ValidDevs(devs) && ValidOut(devs, out)
    ensures AllWellSized(Sizes(devs), out)
  {
    forall i | 0 <= i < |out| ensures WellSized(Sizes(devs), out[i]) {
      assert ValidRecord(devs, out[i]);
      if out[i].Chunk? {
        assert ValidDev(devs[out[i].block.dev]);
      }
    }
  }

  /** The end of stage 3: completion is reported and the section ends. */
  function Closing(out: seq<Record>): seq<Record> {
    out + [Progress(100)] + [Eos]
  }

  lemma ClosingSent(out: seq<Record>)
    ensures Sent(Closing(out)) == Sent(out)
  {
    SentAppend(out, Progress(100));
    SentAppend(out + [Progress(100)], Eos);
    assert Sent(out) + [] == Sent(out);
  }

  /** End to end over the bytes: after any orderly run that finished the bulk phase and was drained,
      loading the stream of the whole migration leaves every migrated device of the destination
      equal to its source, and every other device as it was. */
  lemma StreamDelivers(names: seq<seq<Byte>>, st0: State, evs: seq<Event>, mem: seq<Byte>, m: Devices, dst: seq<seq<Byte>>)
    requires Initial(st0) && Prepared(st0, dst) && OrderlyRun(st0, evs) && |mem| == 1048576
    requires var st := Run(st0, evs); st.bulkCompleted && Drained(st) && Addressable(Sizes(st.devs))
    requires ValidNames(names) && |names| == |Run(st0, evs).devs| && Holds(names, m, dst)
    ensures
      var st := Run(st0, evs);
      && BlockState.Valid(st)
      && var out := Closing(SendAll(st, mem).out);
      && AllNamed(names, out)
      && Delivered(names, m, LoadAll(m, StreamBytes(names, out)), Disks(st.devs))
  {
    hide *;
    var st := Run(st0, evs);
    MigrationDelivers(st0, evs, mem, dst);
    var st' := SendAll(st, mem);
    var out := Closing(st'.out);
    SendAllValid(st, mem);
    ClosingSized(st.devs, st'.out);
    ClosingSent(st'.out);
    StreamLoads(names, Sizes(st.devs), m, dst, out);
  }

  lemma ClosingSized(devs: seq<Dev>, out: seq<Record>)
    requires ValidDevs(devs) && ValidOut(devs, out)
    ensures AllWellSized(Sizes(devs), Closing(out)) && Closing(out) != [] && Closing(out)[|Closing(out)| - 1].Eos?
  {
    hide ValidDev, ValidBlock, WellSized;
    assert ValidOut(devs, Closing(out));
    ValidIsSized(devs, Closing(out));
  }

  lemma {:induction false} SendAllValid(st: State, mem: seq<Byte>)
    requires BlockState.Valid(st) && |mem| == 1048576
    ensures ValidDevs(st.devs) && ValidOut(st.devs, SendAll(st, mem).out)
    decreases DirtyTotal(st.devs)
  {
    hide ValidDev, ValidBlock, SendFirst, HasDirty;
    if FirstDirtyDev(st.devs, 0) < |st.devs| {
      var st' := SendFirst(st, mem);
      SendAllValid(st', mem);
      SendFirstKeeps(st, mem);
      ShapeOut(st'.devs, st.devs, SendAll(st', mem).out);
    }
  }

  lemma ShapeOut(a: seq<Dev>, b: seq<Dev>, out: seq<Record>)
    requires SameShape(b, a) && ValidOut(a, out)
    ensures ValidOut(b, out)
  {
    forall i | 0 <= i < |out| ensures ValidRecord(b, out[i]) {
      assert ValidRecord(a, out[i]);
    }
  }
}
