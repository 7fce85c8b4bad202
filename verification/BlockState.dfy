/** Live block migration as a state machine.  The steps are those of the migration thread (submit a
    read, take a finished read off the queue), of reads in flight (one byte at a time, then a
    completion) and of the guest (write bytes, then mark the chunk dirty on completion), in any
    interleaving.  Disks are byte sequences; a sector is 512 bytes and a chunk 2048 sectors. */
module BlockState {
  import opened Common
  import opened Words
  import D = DirtyBitmap

  function ChunkOf(p: nat): nat {
    p / 1048576
  }

  /** One byte of a read buffer. */
  datatype Cell = Unread | Got(value: Byte)

  /** A guest write in flight. */
  datatype Write = Write(sector: nat, count: nat)

  predicate InWrite(w: Write, p: nat) {
    512 * w.sector <= p < 512 * w.sector + 512 * w.count
  }

  /** BlkMigDevState with its disk, except for the cursor of the dirty pass.  `dirty` and `inflight`
      are the chunks set in the two bitmaps. */
  datatype Dev = Dev(
    disk: seq<Byte>,
    present: seq<bool>,
    sharedBase: bool,
    dirty: set<nat>,
    inflight: set<nat>,
    writes: seq<Write>,
    cur: nat,
    completed: nat,
    bulkDone: bool)

  function Total(v: Dev): nat {
    |v.present|
  }

  /** A read in flight. */
  datatype Read = Read(dev: nat, sector: nat, cells: seq<Cell>)

  /** A finished read: a 1 MiB buffer whose first nr sectors are valid. */
  datatype Block = Block(dev: nat, sector: nat, nr: nat, buf: seq<Byte>, ok: bool)

  datatype Record = Chunk(block: Block) | Progress(percent: nat) | Eos

  datatype State = State(
    devs: seq<Dev>,
    pending: seq<Read>,
    queue: seq<Block>,
    out: seq<Record>,
    submitted: int,
    readDone: int,
    bulkCompleted: bool,
    prevProgress: int)

  /** The length of a transfer: a whole chunk, or what is left of the disk. */
  function ChunkSectors(total: nat, sector: nat): nat
    requires sector < total
  {
    if total - sector < 2048 then total - sector else 2048
  }

  // ----- well-formed states

  predicate InDisk(total: nat, w: Write) {
    w.sector + w.count <= total
  }

  ghost predicate ValidDev(v: Dev) {
    && Total(v) > 0 && |v.disk| == 512 * Total(v)
    && v.cur <= Total(v) && (v.cur % 2048 == 0 || v.cur == Total(v))
    && v.completed <= v.cur
    && (v.bulkDone ==> v.cur == Total(v))
    && (forall c: nat :: c in v.dirty ==> 2048 * c < Total(v))
    && forall i :: 0 <= i < |v.writes| ==> InDisk(Total(v), v.writes[i])
  }

  predicate Aligned(devs: seq<Dev>, dev: nat, sector: nat) {
    dev < |devs| && sector % 2048 == 0 && sector < Total(devs[dev])
  }

  predicate ValidRead(devs: seq<Dev>, r: Read) {
    Aligned(devs, r.dev, r.sector) && |r.cells| == 512 * ChunkSectors(Total(devs[r.dev]), r.sector)
  }

  predicate ValidBlock(devs: seq<Dev>, b: Block) {
    Aligned(devs, b.dev, b.sector) && b.nr == ChunkSectors(Total(devs[b.dev]), b.sector) && |b.buf| == 1048576
  }

  predicate ValidRecord(devs: seq<Dev>, r: Record) {
    match r
    case Chunk(b) => ValidBlock(devs, b) && b.ok
    case Progress(percent) => percent <= 100
    case Eos => true
  }

  ghost predicate ValidDevs(devs: seq<Dev>) {
    forall d :: 0 <= d < |devs| ==> ValidDev(devs[d])
  }

  ghost predicate ValidReads(devs: seq<Dev>, pending: seq<Read>) {
    forall i :: 0 <= i < |pending| ==> ValidRead(devs, pending[i])
  }

  ghost predicate ValidBlocks(devs: seq<Dev>, blocks: seq<Block>) {
    forall i :: 0 <= i < |blocks| ==> ValidBlock(devs, blocks[i])
  }

  ghost predicate ValidOut(devs: seq<Dev>, out: seq<Record>) {
    forall i :: 0 <= i < |out| ==> ValidRecord(devs, out[i])
  }

  ghost predicate AllBulkDone(devs: seq<Dev>) {
    forall d :: 0 <= d < |devs| ==> devs[d].bulkDone
  }

  /** What every step keeps; the counters are the accounting of the source. */
  ghost predicate Valid(st: State) {
    && ValidDevs(st.devs) && ValidReads(st.devs, st.pending) && ValidBlocks(st.devs, st.queue) && ValidOut(st.devs, st.out)
    && st.submitted == |st.pending| && st.readDone == |st.queue|
    && (st.bulkCompleted ==> AllBulkDone(st.devs))
  }

  // ----- the guest

  /** The chunks set_dirty_bitmap visits. */
  function Marked(sector: nat, count: nat): set<nat> {
    set c: nat | D.FirstChunk(sector) <= c <= D.LastChunk(sector, count) && D.Visits(sector, count, c)
  }

  function SetDev(st: State, d: nat, v: Dev): State
    requires d < |st.devs|
  {
    st.(devs := st.devs[d := v])
  }

  function BeginWrite(v: Dev, w: Write): Dev {
    v.(writes := v.writes + [w])
  }

  predicate UnderWrite(v: Dev, p: nat) {
    exists i :: 0 <= i < |v.writes| && InWrite(v.writes[i], p)
  }

  /** A write in flight changes one byte. */
  function WriteByte(v: Dev, p: nat, x: Byte): Dev
    requires p < |v.disk| && p / 512 < Total(v)
  {
    v.(disk := v.disk[p := x], present := v.present[p / 512 := true])
  }

  /** The write completes and block_complete_cb marks its chunks. */
  function EndWrite(v: Dev, i: nat): Dev
    requires i < |v.writes|
  {
    v.(writes := v.writes[..i] + v.writes[i + 1..], dirty := v.dirty + Marked(v.writes[i].sector, v.writes[i].count))
  }

  /** bdrv_write, which marks before it writes and is not interrupted by migration steps. */
  function WriteNow(v: Dev, w: Write, data: seq<Byte>): Dev
    requires |v.disk| == 512 * Total(v) && InDisk(Total(v), w) && |data| == 512 * w.count
  {
    v.(dirty := v.dirty + Marked(w.sector, w.count),
       disk := Spliced(v.disk, 512 * w.sector, data),
       present := seq(Total(v), s requires 0 <= s < Total(v) => v.present[s] || w.sector <= s < w.sector + w.count))
  }

  // ----- reads in flight

  function Sampled(r: Read, k: nat, x: Byte): Read
    requires k < |r.cells|
  {
    r.(cells := r.cells[k := Got(x)])
  }

  predicate Complete(cells: seq<Cell>) {
    forall k :: 0 <= k < |cells| ==> cells[k].Got?
  }

  /** A buffer from the heap with its head overwritten. */
  function Buffer(mem: seq<Byte>, data: seq<Byte>): (buf: seq<Byte>)
    requires |data| <= |mem| == 1048576
    ensures |buf| == 1048576
  {
    data + mem[|data|..]
  }

  function Values(cells: seq<Cell>): (r: seq<Byte>)
    ensures |r| == |cells|
  {
    seq(|cells|, k requires 0 <= k < |cells| => if cells[k].Got? then cells[k].value else 0)
  }

  function Finished(r: Read, mem: seq<Byte>, ok: bool): Block
    requires |r.cells| <= |mem| == 1048576
  {
    Block(r.dev, r.sector, |r.cells| / 512, Buffer(mem, Values(r.cells)), ok)
  }

  /** blk_mig_read_cb */
  function CompleteRead(st: State, i: nat, mem: seq<Byte>, ok: bool): State
    requires i < |st.pending| && st.pending[i].dev < |st.devs| && |st.pending[i].cells| <= |mem| == 1048576
  {
    var r := st.pending[i];
    var v := st.devs[r.dev];
    st.(devs := st.devs[r.dev := v.(inflight := v.inflight - {r.sector / 2048})],
        pending := st.pending[..i] + st.pending[i + 1..],
        queue := st.queue + [Finished(r, mem, ok)],
        submitted := st.submitted - 1,
        readDone := st.readDone + 1)
  }

  // ----- the migration thread

  /** The first allocated sector from s on, or the end of the disk. */
  function FirstAllocated(present: seq<bool>, s: nat): (r: nat)
    requires s <= |present|
    ensures s <= r <= |present|
    ensures r < |present| ==> present[r]
    ensures forall k :: s <= k < r ==> !present[k]
    decreases |present| - s
  {
    if s == |present| || present[s] then s else FirstAllocated(present, s + 1)
  }

  function BulkStart(v: Dev): (s: nat)
    requires v.cur <= Total(v)
    ensures v.cur <= s <= Total(v)
  {
    if v.sharedBase then FirstAllocated(v.present, v.cur) else v.cur
  }

  function NewRead(d: nat, total: nat, sector: nat): Read
    requires sector < total
  {
    Read(d, sector, seq(512 * ChunkSectors(total, sector), _ => Unread))
  }

  /** mig_save_device_bulk, with the caller's update of bulk_completed. */
  function BulkDevice(st: State, d: nat): State
    requires d < |st.devs| && st.devs[d].cur <= Total(st.devs[d])
  {
    var v := st.devs[d];
    var start := BulkStart(v);
    if start == Total(v) then SetDev(st, d, v.(cur := Total(v), completed := Total(v), bulkDone := true))
    else
      var sector := start / 2048 * 2048;
      var next := sector + ChunkSectors(Total(v), sector);
      var v' := v.(completed := start, dirty := v.dirty - {sector / 2048}, cur := next, bulkDone := next >= Total(v));
      SetDev(st, d, v').(pending := st.pending + [NewRead(d, Total(v), sector)], submitted := st.submitted + 1)
  }

  function FirstUnfinished(devs: seq<Dev>, d: nat): (r: nat)
    requires d <= |devs|
    ensures d <= r <= |devs|
    ensures r < |devs| ==> !devs[r].bulkDone
    ensures forall k :: d <= k < r ==> devs[k].bulkDone
    decreases |devs| - d
  {
    if d == |devs| || !devs[d].bulkDone then d else FirstUnfinished(devs, d + 1)
  }

  function CompletedSum(devs: seq<Dev>, n: nat): nat
    requires n <= |devs|
  {
    if n == 0 then 0 else CompletedSum(devs, n - 1) + devs[n - 1].completed
  }

  function TotalSum(devs: seq<Dev>, n: nat): nat
    requires n <= |devs|
  {
    if n == 0 then 0 else TotalSum(devs, n - 1) + Total(devs[n - 1])
  }

  /** The percentage reported after n devices have been looked at. */
  function Percent(devs: seq<Dev>, n: nat): nat
    requires n <= |devs|
  {
    var total := TotalSum(devs, |devs|);
    if total != 0 then CompletedSum(devs, n) * 100 / total else 100
  }

  function Report(st: State, percent: nat): State {
    if percent != st.prevProgress then st.(prevProgress := percent, out := st.out + [Progress(percent)]) else st
  }

  /** blk_mig_save_bulked_block, and the end of the bulk phase when no device is left. */
  function Bulk(st: State): State
    requires forall d :: 0 <= d < |st.devs| ==> st.devs[d].cur <= Total(st.devs[d])
  {
    var d := FirstUnfinished(st.devs, 0);
    if d == |st.devs| then Report(st, Percent(st.devs, d)).(bulkCompleted := true)
    else
      var st' := BulkDevice(st, d);
      Report(st', Percent(st'.devs, d + 1))
  }

  /** A dirty chunk is read asynchronously. */
  function SubmitDirty(st: State, d: nat, c: nat): State
    requires d < |st.devs| && 2048 * c < Total(st.devs[d])
  {
    var v := st.devs[d];
    SetDev(st, d, v.(dirty := v.dirty - {c}, inflight := v.inflight + {c}))
      .(pending := st.pending + [NewRead(d, Total(v), 2048 * c)], submitted := st.submitted + 1)
  }

  /** The dirty chunk as it is on disk now. */
  function ChunkNow(v: Dev, d: nat, c: nat, mem: seq<Byte>): Block
    requires 2048 * c < Total(v) && |v.disk| == 512 * Total(v) && |mem| == 1048576
  {
    var nr := ChunkSectors(Total(v), 2048 * c);
    Block(d, 2048 * c, nr, Buffer(mem, v.disk[512 * (2048 * c)..512 * (2048 * c) + 512 * nr]), true)
  }

  /** A dirty chunk is read and sent synchronously. */
  function SendDirty(st: State, d: nat, c: nat, mem: seq<Byte>): State
    requires d < |st.devs| && 2048 * c < Total(st.devs[d]) && |st.devs[d].disk| == 512 * Total(st.devs[d]) && |mem| == 1048576
  {
    var v := st.devs[d];
    SetDev(st, d, v.(dirty := v.dirty - {c})).(out := st.out + [Chunk(ChunkNow(v, d, c, mem))])
  }

  /** One turn of flush_blks: the head of the queue is sent, unless its read failed. */
  function FlushOne(st: State): State
    requires st.queue != []
  {
    if !st.queue[0].ok then st
    else st.(out := st.out + [Chunk(st.queue[0])], queue := st.queue[1..], readDone := st.readDone - 1)
  }

  // ----- runs

  datatype Event =
    | GuestBegin(d: nat, w: Write)
    | GuestByte(d: nat, p: nat, x: Byte)
    | GuestEnd(d: nat, i: nat)
    | GuestWrite(d: nat, w: Write, data: seq<Byte>)
    | ReadByte(i: nat, k: nat)
    | ReadDone(i: nat, mem: seq<Byte>, ok: bool)
    | BulkStep
    | DirtyStep(d: nat, c: nat)
    | FlushStep
    | EndSection

  /** The event can happen. */
  predicate Enabled(st: State, ev: Event) {
    match ev
    case GuestBegin(d, w) => d < |st.devs| && InDisk(Total(st.devs[d]), w)
    case GuestByte(d, p, x) => d < |st.devs| && p < |st.devs[d].disk| && p / 512 < Total(st.devs[d]) && UnderWrite(st.devs[d], p)
    case GuestEnd(d, i) => d < |st.devs| && i < |st.devs[d].writes|
    case GuestWrite(d, w, data) =>
      && d < |st.devs| && InDisk(Total(st.devs[d]), w) && |data| == 512 * w.count && |st.devs[d].disk| == 512 * Total(st.devs[d])
    case ReadByte(i, k) =>
      && i < |st.pending| && k < |st.pending[i].cells| && st.pending[i].dev < |st.devs|
      && 512 * st.pending[i].sector + k < |st.devs[st.pending[i].dev].disk|
    case ReadDone(i, mem, ok) =>
      && i < |st.pending| && st.pending[i].dev < |st.devs| && |st.pending[i].cells| <= |mem| == 1048576
      && (ok ==> Complete(st.pending[i].cells))
    case BulkStep => !st.bulkCompleted && forall d :: 0 <= d < |st.devs| ==> st.devs[d].cur <= Total(st.devs[d])
    case DirtyStep(d, c) => st.bulkCompleted && d < |st.devs| && 2048 * c < Total(st.devs[d]) && c in st.devs[d].dirty
    case FlushStep => st.queue != []
    case EndSection => true
  }

  function Step(st: State, ev: Event): State {
    if !Enabled(st, ev) then st
    else match ev
      case GuestBegin(d, w) => SetDev(st, d, BeginWrite(st.devs[d], w))
      case GuestByte(d, p, x) => SetDev(st, d, WriteByte(st.devs[d], p, x))
      case GuestEnd(d, i) => SetDev(st, d, EndWrite(st.devs[d], i))
      case GuestWrite(d, w, data) => SetDev(st, d, WriteNow(st.devs[d], w, data))
      case ReadByte(i, k) =>
        var r := st.pending[i];
        st.(pending := st.pending[i := Sampled(r, k, st.devs[r.dev].disk[512 * r.sector + k])])
      case ReadDone(i, mem, ok) => CompleteRead(st, i, mem, ok)
      case BulkStep => Bulk(st)
      case DirtyStep(d, c) => SubmitDirty(st, d, c)
      case FlushStep => FlushOne(st)
      case EndSection => st.(out := st.out + [Eos])
  }

  function Run(st: State, evs: seq<Event>): State
    decreases |evs|
  {
    if evs == [] then st else Run(Step(st, evs[0]), evs[1..])
  }
}
