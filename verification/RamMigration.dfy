/** Live RAM migration as a protocol: the sender's rounds over dirty pages, guest writes in
    between, and the receiver replaying the stream. */
module RamMigration {
  import opened Common
  import opened Words
  import opened RamState
  import opened RamStream

  /** The sender's state and the bytes it put on the stream. */
  datatype Sent = Sent(ram: Ram, out: seq<Byte>)

  /** Valid, and a null cursor only while every page is still dirty. */
  ghost predicate Ready(r: Ram) {
    Valid(r) && (r.last < 0 ==> AllDirty(r))
  }

  // ----- one page

  /** ram_save_block: the next dirty page from the cursor is masked clean and sent, and the
      cursor moves to it. */
  function SaveBlock(r: Ram): (s: Sent)
    requires Valid(r)
    ensures Valid(s.ram) && s.ram.blocks == r.blocks && |s.ram.flags| == |r.flags|
  {
    match NextDirty(r)
    case None => Sent(r, [])
    case Some(p) => Sent(ClearDirty(r, p).(last := p.block, lastPage := p.page), PageRecord(r, p))
  }

  lemma SaveBlockKeepsReady(r: Ram)
    requires Ready(r)
    ensures Ready(SaveBlock(r).ram) && SaveBlock(r).ram.blocks == r.blocks
    ensures NextDirty(r).Some? ==> SaveBlock(r).ram.last >= 0 && DirtyCount(SaveBlock(r).ram) == DirtyCount(r) - 1
  {
    match NextDirty(r) {
      case None =>
      case Some(p) => SaveBlockCounts(r, p);
    }
  }

  lemma SaveBlockCounts(r: Ram, p: Pos)
    requires Valid(r) && InRange(r.blocks, p) && Dirty(r, p)
    ensures DirtyCount(ClearDirty(r, p).(last := p.block, lastPage := p.page)) == DirtyCount(r) - 1
  {
    ClearDirtyUpTo(r, p, |r.blocks|);
    CursorIrrelevant(ClearDirty(r, p), p.block, p.page, |r.blocks|);
  }

  lemma {:induction false} CursorIrrelevant(r: Ram, last: int, page: nat, n: nat)
    requires ValidBlocks(r.blocks, |r.flags|) && n <= |r.blocks|
    ensures DirtyUpTo(r.(last := last, lastPage := page), n) == DirtyUpTo(r, n)
    decreases n
  {
    if n > 0 { CursorIrrelevant(r, last, page, n - 1); }
  }

  /** A null cursor finds the very first page dirty, so the scan's loop test is never
      evaluated with a null `last_block`. */
  lemma NullCursorStopsAtOnce(r: Ram)
    requires Ready(r) && r.last < 0
    ensures NextDirty(r) == Some(Pos(0, 0))
  {
    OrdinalBound(r.blocks, Pos(0, 0));
  }

  /** A scan in progress: at p with n pages still to look at. */
  ghost predicate Scanning(r: Ram, p: Pos, n: nat)
    requires Valid(r)
  {
    && InRange(r.blocks, p) && n > 0
    && NextDirty(r) == Scan(r, p, n)
    && (if p == StartPos(r) then n == TotalPages(r.blocks)
        else r.last >= 0 && n == Distance(r.blocks, p, StartPos(r)))
  }

  /** What a scan knows at p. */
  lemma ScanningMeans(r: Ram, p: Pos, n: nat)
    requires Valid(r) && Scanning(r, p, n)
    ensures InRange(r.blocks, p) && n > 0 && r.blocks[p.block].base + p.page < |r.flags|
    ensures Dirty(r, p) ==> NextDirty(r) == Some(p)
  {
    hide Distance, TotalPages;
    ScanStep(r, p, n, n - 1);
  }

  lemma ScanBegins(r: Ram)
    requires Valid(r)
    ensures Scanning(r, StartPos(r), TotalPages(r.blocks))
  {
    OrdinalBound(r.blocks, StartPos(r));
  }

  /** Past a clean page the cursor is real, and the scan goes on or is back where it began. */
  lemma ScanAdvances(r: Ram, p: Pos, n: nat, m: nat)
    requires Ready(r) && Scanning(r, p, n) && !Dirty(r, p) && n == m + 1
    ensures r.last >= 0
    ensures Next(r.blocks, p) == StartPos(r) ==> NextDirty(r).None?
    ensures Next(r.blocks, p) != StartPos(r) ==> Scanning(r, Next(r.blocks, p), m)
  {
    var q, start := Next(r.blocks, p), StartPos(r);
    ScanStep(r, p, n, m);
    DistanceNext(r.blocks, p, start);
    if q != start {
      DistancePositive(r.blocks, q, start);
    }
  }

  /** With a real cursor, a scan that finds nothing ends on the cursor: nothing changes. */
  lemma NothingSentOnlyWhenClean(r: Ram)
    requires Ready(r)
    ensures SaveBlock(r).out == [] <==> NoneDirty(r)
    ensures NoneDirty(r) ==> r.last >= 0 && SaveBlock(r).ram == r
  {
    NextDirtyComplete(r);
    if r.last < 0 {
      NullCursorStopsAtOnce(r);
    }
    match NextDirty(r) {
      case None =>
      case Some(p) => assert |PageRecord(r, p)| >= 8;
    }
  }

  // ----- one call of ram_save_live

  /** Pages sent until the rate limit trips or nothing is dirty; `limits` are the answers of
      qemu_file_rate_limit, asked before each page, and it stays tripped after the last. */
  function SaveSome(r: Ram, limits: seq<bool>): (s: Sent)
    requires Valid(r)
    ensures Valid(s.ram) && s.ram.blocks == r.blocks && |s.ram.flags| == |r.flags|
    decreases |limits|
  {
    if limits == [] || limits[0] then Sent(r, [])
    else match NextDirty(r)
      case None => Sent(r, [])
      case Some(_) =>
        var s := SaveBlock(r);
        var t := SaveSome(s.ram, limits[1..]);
        Sent(t.ram, s.out + t.out)
  }

  /** The stage 3 flush: everything still dirty, regardless of rate limits. */
  function SaveAll(r: Ram): (s: Sent)
    requires Valid(r)
    ensures Valid(s.ram) && s.ram.blocks == r.blocks && |s.ram.flags| == |r.flags|
    decreases DirtyCount(r)
  {
    match NextDirty(r)
    case None => Sent(r, [])
    case Some(p) =>
      var s := SaveBlock(r);
      SaveBlockCounts(r, p);
      var t := SaveAll(s.ram);
      Sent(t.ram, s.out + t.out)
  }

  /** Saving from `cur` after `sent` has gone out completes what saving from r does. */
  ghost predicate SomeFrom(r: Ram, limits: seq<bool>, cur: Ram, left: seq<bool>, sent: seq<Byte>)
    requires Valid(r) && Valid(cur)
  {
    SaveSome(r, limits) == Sent(SaveSome(cur, left).ram, sent + SaveSome(cur, left).out)
  }

  lemma SomeStep(r: Ram, limits: seq<bool>, cur: Ram, left: seq<bool>, sent: seq<Byte>)
    requires Valid(r) && Ready(cur) && SomeFrom(r, limits, cur, left, sent) && left != [] && !left[0]
    ensures Ready(SaveBlock(cur).ram)
    ensures if NextDirty(cur).None? then SaveSome(r, limits) == Sent(cur, sent)
            else SomeFrom(r, limits, SaveBlock(cur).ram, left[1..], sent + SaveBlock(cur).out)
  {
    SaveBlockKeepsReady(cur);
    if NextDirty(cur).None? {
      assert sent + [] == sent;
    } else {
      Assoc(sent, SaveBlock(cur).out, SaveSome(SaveBlock(cur).ram, left[1..]).out);
    }
  }

  ghost predicate AllFrom(r: Ram, cur: Ram, sent: seq<Byte>)
    requires Valid(r) && Valid(cur)
  {
    SaveAll(r) == Sent(SaveAll(cur).ram, sent + SaveAll(cur).out)
  }

  lemma AllBegins(r: Ram)
    requires Valid(r)
    ensures AllFrom(r, r, [])
  {
    hide SaveAll;
    assert [] + SaveAll(r).out == SaveAll(r).out;
  }

  lemma AllStep(r: Ram, cur: Ram, sent: seq<Byte>)
    requires Valid(r) && Ready(cur) && AllFrom(r, cur, sent)
    ensures Ready(SaveBlock(cur).ram)
    ensures if NextDirty(cur).None? then SaveAll(r) == Sent(cur, sent)
            else AllFrom(r, SaveBlock(cur).ram, sent + SaveBlock(cur).out) && DirtyCount(SaveBlock(cur).ram) < DirtyCount(cur)
  {
    SaveBlockKeepsReady(cur);
    if NextDirty(cur).None? {
      assert sent + [] == sent;
    } else {
      Assoc(sent, SaveBlock(cur).out, SaveAll(SaveBlock(cur).ram).out);
    }
  }

  function MarkRange(flags: seq<bv8>, base: nat, n: nat): (f: seq<bv8>)
    requires base + n <= |flags|
    ensures |f| == |flags|
  {
    seq(|flags|, g requires 0 <= g < |flags| => if base <= g < base + n && !IsDirty(flags[g]) then 0xff else flags[g])
  }

  /** Every page of the first n blocks marked dirty. */
  function MarkBlocks(blocks: seq<RamBlock>, flags: seq<bv8>, n: nat): (f: seq<bv8>)
    requires n <= |blocks| && forall i :: 0 <= i < |blocks| ==> blocks[i].base + |blocks[i].pages| <= |flags|
    ensures |f| == |flags|
  {
    if n == 0 then flags
    else MarkRange(MarkBlocks(blocks, flags, n - 1), blocks[n - 1].base, |blocks[n - 1].pages|)
  }

  lemma {:induction false} MarkBlocksMarks(blocks: seq<RamBlock>, flags: seq<bv8>, n: nat, p: Pos)
    requires ValidBlocks(blocks, |flags|) && p.block < n <= |blocks| && InRange(blocks, p)
    ensures IsDirty(MarkBlocks(blocks, flags, n)[FlagIndex(blocks, p)])
  {
    if p.block < n - 1 { MarkBlocksMarks(blocks, flags, n - 1, p); }
  }

  /** Marking sets bits and clears none, and leaves every page of the blocks dirty. */
  lemma MarkBlocksMarksAll(blocks: seq<RamBlock>, flags: seq<bv8>)
    requires ValidBlocks(blocks, |flags|)
    ensures
      var f := MarkBlocks(blocks, flags, |blocks|);
      && (forall p | InRange(blocks, p) :: IsDirty(f[FlagIndex(blocks, p)]))
      && forall g :: 0 <= g < |flags| ==> KeepsBits(flags[g], f[g])
  {
    hide KeepsBits, MarkBlocks;
    forall p | InRange(blocks, p) ensures IsDirty(MarkBlocks(blocks, flags, |blocks|)[FlagIndex(blocks, p)]) {
      MarkBlocksMarks(blocks, flags, |blocks|, p);
    }
    forall g | 0 <= g < |flags| ensures KeepsBits(flags[g], MarkBlocks(blocks, flags, |blocks|)[g]) {
      MarkBlocksKeepsBits(blocks, flags, |blocks|, g);
    }
  }

  lemma BitsOf(f: bv8)
    ensures KeepsBits(f, f) && KeepsBits(f, 0xff)
  {}

  lemma {:induction false} MarkBlocksKeepsBits(blocks: seq<RamBlock>, flags: seq<bv8>, n: nat, g: nat)
    requires n <= |blocks| && g < |flags| && forall i :: 0 <= i < |blocks| ==> blocks[i].base + |blocks[i].pages| <= |flags|
    ensures var f := MarkBlocks(blocks, flags, n)[g]; f == flags[g] || f == 0xff
    ensures KeepsBits(flags[g], MarkBlocks(blocks, flags, n)[g])
  {
    hide KeepsBits, IsDirty;
    BitsOf(flags[g]);
    if n > 0 {
      MarkBlocksKeepsBits(blocks, flags, n - 1, g);
    }
  }

  /** Stage 1 rewinds the cursor and marks all of RAM dirty. */
  function Rewind(r: Ram): (r': Ram)
    requires ValidBlocks(r.blocks, |r.flags|)
  {
    Ram(r.blocks, MarkBlocks(r.blocks, r.flags, |r.blocks|), -1, 0)
  }

  lemma RewindValid(r: Ram)
    requires ValidBlocks(r.blocks, |r.flags|)
    ensures Valid(Rewind(r))
  {}

  lemma RewindReady(r: Ram)
    requires ValidBlocks(r.blocks, |r.flags|)
    ensures Ready(Rewind(r)) && AllDirty(Rewind(r))
  {
    forall p | InRange(r.blocks, p) ensures Dirty(Rewind(r), p) {
      MarkBlocksMarks(r.blocks, r.flags, |r.blocks|, p);
    }
  }

  /** A section without its stage 1 header. */
  function SectionBody(r: Ram, stage: int, limits: seq<bool>): Sent
    requires Valid(r)
  {
    var s := SaveSome(r, limits);
    var t := if stage == 3 then SaveAll(s.ram) else Sent(s.ram, []);
    Sent(t.ram, s.out + t.out + Word(0, FLAG_EOS))
  }

  /** One call of ram_save_live in stage 1, 2 or 3. */
  function SaveLive(r: Ram, stage: int, limits: seq<bool>): Sent
    requires if stage == 1 then ValidBlocks(r.blocks, |r.flags|) else Valid(r)
  {
    if stage == 1 then
      RewindValid(r);
      var s := SectionBody(Rewind(r), stage, limits);
      Sent(s.ram, Header(r.blocks) + s.out)
    else SectionBody(r, stage, limits)
  }

  // ----- what the two sides agree on

  /** The receiver has every block, holds the sender's contents of every clean page, and
      remembers the sender's block. */
  ghost predicate InStep(r: Ram, l: Loader) {
    && ValidBlocks(r.blocks, |r.flags|)
    && ValidLoader(l)
    && Compatible(r.blocks, l)
    && (0 <= r.last < |r.blocks| ==> l.cur == Mirror(r, l, r.last))
    && (forall p | InRange(r.blocks, p) && !Dirty(r, p) :: Copied(r, l, p))
  }

  ghost predicate Copied(r: Ram, l: Loader, p: Pos)
    requires InRange(r.blocks, p) && Compatible(r.blocks, l)
  {
    assert |l.blocks[Find(l.blocks, r.blocks[p.block].id)].pages| == |r.blocks[p.block].pages|;
    l.blocks[Mirror(r, l, p.block)].pages[p.page] == r.blocks[p.block].pages[p.page]
  }

  /** Every source page has arrived. */
  ghost predicate Arrived(r: Ram, l: Loader) {
    && Compatible(r.blocks, l)
    && forall p | InRange(r.blocks, p) :: Copied(r, l, p)
  }

  lemma {:induction false} StoreKeepsFindFrom(l: Loader, cur: int, page: nat, data: Page, id: seq<Byte>, i: nat)
    requires 0 <= cur < |l.blocks| && page < |l.blocks[cur].pages| && i <= |l.blocks|
    ensures FindFrom(StorePage(l, cur, page, data).blocks, id, i) == FindFrom(l.blocks, id, i)
    decreases |l.blocks| - i
  {
    if i < |l.blocks| { StoreKeepsFindFrom(l, cur, page, data, id, i + 1); }
  }

  lemma StoreKeepsMirror(r: Ram, l: Loader, cur: int, page: nat, data: Page)
    requires 0 <= cur < |l.blocks| && page < |l.blocks[cur].pages|
    ensures forall b: nat | b < |r.blocks| :: Mirror(r, StorePage(l, cur, page, data), b) == Mirror(r, l, b)
  {
    forall b: nat | b < |r.blocks| ensures Mirror(r, StorePage(l, cur, page, data), b) == Mirror(r, l, b) {
      StoreKeepsFindFrom(l, cur, page, data, r.blocks[b].id, 0);
    }
  }

  /** The receiver after it has replayed the record of page p. */
  ghost function Receive(r: Ram, l: Loader, p: Pos): Loader
    requires InRange(r.blocks, p) && Compatible(r.blocks, l)
  {
    assert |l.blocks[Find(l.blocks, r.blocks[p.block].id)].pages| == |r.blocks[p.block].pages|;
    StorePage(l, Mirror(r, l, p.block), p.page, r.blocks[p.block].pages[p.page])
  }

  lemma {:induction false} MirrorInjective(r: Ram, l: Loader, b: nat, c: nat)
    requires ValidBlocks(r.blocks, |r.flags|) && Compatible(r.blocks, l) && b < |r.blocks| && c < |r.blocks|
    requires b != c
    ensures Mirror(r, l, b) != Mirror(r, l, c)
  {
    assert l.blocks[Mirror(r, l, b)].id == r.blocks[b].id;
    assert l.blocks[Mirror(r, l, c)].id == r.blocks[c].id;
  }

  lemma ReceiveKeepsCompatible(r: Ram, l: Loader, p: Pos)
    requires InRange(r.blocks, p) && Compatible(r.blocks, l)
    ensures Compatible(r.blocks, Receive(r, l, p))
  {
    var l' := Receive(r, l, p);
    var data := r.blocks[p.block].pages[p.page];
    StoreKeepsMirror(r, l, Mirror(r, l, p.block), p.page, data);
    forall i | 0 <= i < |r.blocks|
      ensures var j := Find(l'.blocks, r.blocks[i].id); j >= 0 && |l'.blocks[j].pages| == |r.blocks[i].pages|
    {
      assert Mirror(r, l', i) == Mirror(r, l, i);
    }
  }

  /** Replaying page p copies p and disturbs no other page. */
  lemma ReceiveCopies(r: Ram, l: Loader, p: Pos, q: Pos)
    requires ValidBlocks(r.blocks, |r.flags|) && InRange(r.blocks, p) && InRange(r.blocks, q) && Compatible(r.blocks, l)
    requires q == p || Copied(r, l, q)
    ensures Compatible(r.blocks, Receive(r, l, p)) && Copied(r, Receive(r, l, p), q)
  {
    ReceiveKeepsCompatible(r, l, p);
    StoreKeepsMirror(r, l, Mirror(r, l, p.block), p.page, r.blocks[p.block].pages[p.page]);
    assert Mirror(r, Receive(r, l, p), q.block) == Mirror(r, l, q.block);
    if q.block != p.block {
      MirrorInjective(r, l, p.block, q.block);
    }
  }

  /** One page sent and replayed keeps the two sides in step. */
  lemma SaveBlockInStep(r: Ram, l: Loader, p: Pos)
    requires Valid(r) && InStep(r, l) && NextDirty(r) == Some(p)
    ensures InStep(SaveBlock(r).ram, Receive(r, l, p))
  {
    var r', l' := SaveBlock(r).ram, Receive(r, l, p);
    ReceiveKeepsCompatible(r, l, p);
    StoreKeepsMirror(r, l, Mirror(r, l, p.block), p.page, r.blocks[p.block].pages[p.page]);
    assert Mirror(r, l', p.block) == Mirror(r, l, p.block);
    forall q | InRange(r.blocks, q) && !Dirty(r', q) ensures Copied(r', l', q) {
      ClearDirtyExact(r, p, q);
      ReceiveCopies(r, l, p, q);
    }
  }

  lemma SaveBlockLoads(r: Ram, l: Loader, p: Pos, rest: seq<Byte>)
    requires Valid(r) && InStep(r, l) && NextDirty(r) == Some(p)
    ensures ValidLoader(Receive(r, l, p))
    ensures LoadSection(l, SaveBlock(r).out + rest) == LoadSection(Receive(r, l, p), rest)
  {
    assert Mirror(r, l, p.block) >= 0;
    PageRecordLoads(r, l, p, rest);
  }

  lemma {:induction false} SaveSomeLoads(r: Ram, l: Loader, limits: seq<bool>, rest: seq<Byte>) returns (l': Loader)
    requires Ready(r) && InStep(r, l)
    ensures Ready(SaveSome(r, limits).ram) && InStep(SaveSome(r, limits).ram, l')
    ensures LoadSection(l, SaveSome(r, limits).out + rest) == LoadSection(l', rest)
    decreases |limits|
  {
    if limits == [] || limits[0] || NextDirty(r).None? {
      l' := l;
      assert [] + rest == rest;
    } else {
      var p := NextDirty(r).value;
      var s := SaveBlock(r);
      var t := SaveSome(s.ram, limits[1..]);
      SaveBlockKeepsReady(r);
      SaveBlockInStep(r, l, p);
      l' := SaveSomeLoads(s.ram, Receive(r, l, p), limits[1..], rest);
      SaveBlockLoads(r, l, p, t.out + rest);
      Assoc(s.out, t.out, rest);
    }
  }

  /** The stage 3 flush leaves nothing dirty. */
  lemma {:induction false} SaveAllLoads(r: Ram, l: Loader, rest: seq<Byte>) returns (l': Loader)
    requires Ready(r) && InStep(r, l)
    ensures Ready(SaveAll(r).ram) && InStep(SaveAll(r).ram, l') && NoneDirty(SaveAll(r).ram)
    ensures LoadSection(l, SaveAll(r).out + rest) == LoadSection(l', rest)
    decreases DirtyCount(r)
  {
    match NextDirty(r) {
      case None =>
        l' := l;
        NextDirtyComplete(r);
        assert [] + rest == rest;
      case Some(p) =>
        var s := SaveBlock(r);
        SaveBlockCounts(r, p);
        var t := SaveAll(s.ram);
        SaveBlockKeepsReady(r);
        SaveBlockInStep(r, l, p);
        l' := SaveAllLoads(s.ram, Receive(r, l, p), rest);
        SaveBlockLoads(r, l, p, t.out + rest);
        Assoc(s.out, t.out, rest);
    }
  }

  /** Replaying one section leaves the receiver in step with the sender after that call;
      after stage 3 nothing is dirty. */
  lemma SectionLoads(r: Ram, l: Loader, stage: int, limits: seq<bool>, rest: seq<Byte>) returns (l': Loader)
    requires Ready(r) && InStep(r, l)
    ensures Ready(SectionBody(r, stage, limits).ram) && InStep(SectionBody(r, stage, limits).ram, l')
    ensures stage == 3 ==> NoneDirty(SectionBody(r, stage, limits).ram)
    ensures LoadSection(l, SectionBody(r, stage, limits).out + rest) == Loaded(l', rest)
  {
    var s := SaveSome(r, limits);
    var eos := Word(0, FLAG_EOS) + rest;
    if stage == 3 {
      var t := SaveAll(s.ram);
      var l1 := SaveSomeLoads(r, l, limits, t.out + eos);
      l' := SaveAllLoads(s.ram, l1, eos);
      Reassociate(s.out, t.out, Word(0, FLAG_EOS), rest);
    } else {
      l' := SaveSomeLoads(r, l, limits, [] + eos);
      Reassociate(s.out, [], Word(0, FLAG_EOS), rest);
      assert [] + eos == eos;
    }
    EosLoads(l', rest);
  }

  /** Stage 1 against a receiver with arbitrary contents. */
  lemma StageOneLoads(r: Ram, l: Loader, limits: seq<bool>, rest: seq<Byte>) returns (l': Loader)
    requires ValidBlocks(r.blocks, |r.flags|) && ValidLoader(l) && Compatible(r.blocks, l)
    ensures Ready(SaveLive(r, 1, limits).ram) && InStep(SaveLive(r, 1, limits).ram, l')
    ensures LoadSection(l, SaveLive(r, 1, limits).out + rest) == Loaded(l', rest)
  {
    RewindReady(r);
    RewindInStep(r, l);
    var body := SectionBody(Rewind(r), 1, limits).out;
    l' := SectionLoads(Rewind(r), l, 1, limits, rest);
    HeaderLoads(r.blocks, |r.flags|, l, body + rest);
    Assoc(Header(r.blocks), body, rest);
  }

  lemma RewindInStep(r: Ram, l: Loader)
    requires ValidBlocks(r.blocks, |r.flags|) && ValidLoader(l) && Compatible(r.blocks, l)
    ensures InStep(Rewind(r), l)
  {
    RewindReady(r);
  }

  // ----- whole runs

  /** Between stage 1 and stage 3: the guest overwrites a page, or the migration iterates
      with some answers of the rate limit. */
  datatype Event = Write(at: Pos, data: Page) | Iterate(limits: seq<bool>)

  /** A guest store through the not-dirty path sets every flag but CODE_DIRTY_FLAG. */
  function GuestWrite(r: Ram, p: Pos, data: Page): Ram
    requires ValidBlocks(r.blocks, |r.flags|) && InRange(r.blocks, p)
  {
    var g := FlagIndex(r.blocks, p);
    var b := r.blocks[p.block];
    r.(blocks := r.blocks[p.block := b.(pages := b.pages[p.page := data])], flags := r.flags[g := r.flags[g] | 0xfd])
  }

  lemma OrMarks(f: bv8)
    ensures IsDirty(f | 0xfd)
  {}

  lemma {:induction false} GuestWriteKeepsBefore(r: Ram, p: Pos, data: Page, n: nat)
    requires ValidBlocks(r.blocks, |r.flags|) && InRange(r.blocks, p) && n <= |r.blocks|
    ensures Before(GuestWrite(r, p, data).blocks, n) == Before(r.blocks, n)
    decreases n
  {
    if n > 0 { GuestWriteKeepsBefore(r, p, data, n - 1); }
  }

  lemma GuestWriteValid(r: Ram, p: Pos, data: Page)
    requires Valid(r) && InRange(r.blocks, p)
    ensures Valid(GuestWrite(r, p, data))
    ensures forall q | InRange(r.blocks, q) :: InRange(GuestWrite(r, p, data).blocks, q)
  {
    hide Before, IsDirty, ValidId, Bytes;
    GuestWriteKeepsBefore(r, p, data, |r.blocks|);
    var r' := GuestWrite(r, p, data);
    forall i | 0 <= i < |r.blocks|
      ensures r'.blocks[i].id == r.blocks[i].id && r'.blocks[i].base == r.blocks[i].base && |r'.blocks[i].pages| == |r.blocks[i].pages| {}
    forall i, j | 0 <= i < j < |r.blocks| ensures Disjoint(r'.blocks[i], r'.blocks[j]) {
      assert Disjoint(r.blocks[i], r.blocks[j]);
    }
  }

  /** A page is dirty after a guest write exactly when it was dirty or was written. */
  lemma GuestWriteDirties(r: Ram, p: Pos, data: Page, q: Pos)
    requires Valid(r) && InRange(r.blocks, p) && InRange(r.blocks, q) && Valid(GuestWrite(r, p, data))
    ensures InRange(GuestWrite(r, p, data).blocks, q)
    ensures Dirty(GuestWrite(r, p, data), q) <==> Dirty(r, q) || q == p
  {
    OrMarks(r.flags[FlagIndex(r.blocks, p)]);
    FlagIndexInjective(r.blocks, |r.flags|, p, q);
  }

  lemma GuestWriteInStep(r: Ram, l: Loader, p: Pos, data: Page)
    requires Ready(r) && InStep(r, l) && InRange(r.blocks, p)
    ensures Ready(GuestWrite(r, p, data)) && InStep(GuestWrite(r, p, data), l)
  {
    var r' := GuestWrite(r, p, data);
    GuestWriteValid(r, p, data);
    forall q | InRange(r'.blocks, q) ensures InRange(r.blocks, q) && (Dirty(r', q) <==> Dirty(r, q) || q == p) {
      GuestWriteDirties(r, p, data, q);
    }
    assert forall i :: 0 <= i < |r.blocks| ==> r'.blocks[i].id == r.blocks[i].id && |r'.blocks[i].pages| == |r.blocks[i].pages|;
    assert Compatible(r'.blocks, l);
    forall q | InRange(r'.blocks, q) && !Dirty(r', q) ensures Copied(r', l, q) {
      assert Copied(r, l, q);
    }
  }

  function Handle(r: Ram, e: Event): (s: Sent)
    requires Valid(r)
    ensures Valid(s.ram)
  {
    match e
    case Write(p, data) =>
      if InRange(r.blocks, p) then
        GuestWriteValid(r, p, data);
        Sent(GuestWrite(r, p, data), [])
      else Sent(r, [])
    case Iterate(limits) => SaveLive(r, 2, limits)
  }

  function Run(r: Ram, events: seq<Event>): (s: Sent)
    requires Valid(r)
    ensures Valid(s.ram)
    decreases |events|
  {
    if events == [] then Sent(r, [])
    else
      var s := Handle(r, events[0]);
      var t := Run(s.ram, events[1..]);
      Sent(t.ram, s.out + t.out)
  }

  /** Stage 1, any interleaving of guest writes and rate-limited iterations, then stage 3
      with the guest stopped. */
  function Migrate(r: Ram, first: seq<bool>, events: seq<Event>, last: seq<bool>): Sent
    requires ValidBlocks(r.blocks, |r.flags|)
  {
    var a := SaveLive(r, 1, first);
    var b := Run(a.ram, events);
    var c := SaveLive(b.ram, 3, last);
    Sent(c.ram, a.out + (b.out + c.out))
  }

  /** One ram_load for every iteration among the events. */
  function LoadRun(l: Loader, s: seq<Byte>, events: seq<Event>): (o: Outcome)
    requires ValidLoader(l)
    ensures o.Loaded? ==> ValidLoader(o.loader)
    decreases |events|
  {
    if events == [] then Loaded(l, s)
    else if events[0].Write? then LoadRun(l, s, events[1..])
    else match LoadSection(l, s)
      case Loaded(l', rest) => LoadRun(l', rest, events[1..])
      case failure => failure
  }

  /** The receiver's calls for a whole migration, on one stream. */
  function LoadMigration(l: Loader, s: seq<Byte>, events: seq<Event>): Outcome
    requires ValidLoader(l)
  {
    match LoadSection(l, s)
    case Failed => Failed
    case Undefined => Undefined
    case Loaded(l1, s1) =>
      match LoadRun(l1, s1, events)
      case Failed => Failed
      case Undefined => Undefined
      case Loaded(l2, s2) => LoadSection(l2, s2)
  }

  /** After any run the receiver that has replayed it is in step: every page is dirty or its
      last replayed copy is current, and the remembered block is the sender's. */
  lemma {:induction false} RunLoads(r: Ram, l: Loader, events: seq<Event>, rest: seq<Byte>) returns (l': Loader)
    requires Ready(r) && InStep(r, l)
    ensures Ready(Run(r, events).ram) && InStep(Run(r, events).ram, l')
    ensures LoadRun(l, Run(r, events).out + rest, events) == Loaded(l', rest)
    decreases |events|
  {
    if events == [] {
      l' := l;
      assert [] + rest == rest;
    } else {
      var s := Handle(r, events[0]);
      var t := Run(s.ram, events[1..]);
      Assoc(s.out, t.out, rest);
      match events[0] {
        case Write(p, data) =>
          if InRange(r.blocks, p) { GuestWriteInStep(r, l, p, data); }
          l' := RunLoads(s.ram, l, events[1..], rest);
          assert [] + (t.out + rest) == t.out + rest;
        case Iterate(limits) =>
          var l1 := SectionLoads(r, l, 2, limits, t.out + rest);
          l' := RunLoads(s.ram, l1, events[1..], rest);
      }
    }
  }

  /** Whatever the guest wrote and however the rate limit interfered, the receiver accepts the
      whole stream and ends with exactly the source's RAM, whatever it held before. */
  lemma MigrationDelivers(r: Ram, l: Loader, first: seq<bool>, events: seq<Event>, last: seq<bool>)
    requires ValidBlocks(r.blocks, |r.flags|) && ValidLoader(l) && Compatible(r.blocks, l)
    ensures
      var m := Migrate(r, first, events, last);
      var o := LoadMigration(l, m.out, events);
      o.Loaded? && o.rest == [] && Arrived(m.ram, o.loader)
  {
    var a := SaveLive(r, 1, first);
    var b := Run(a.ram, events);
    var c := SaveLive(b.ram, 3, last);
    var l1 := StageOneLoads(r, l, first, b.out + c.out);
    var l2 := RunLoads(a.ram, l1, events, c.out);
    var l3 := SectionLoads(b.ram, l2, 3, last, []);
    assert c.out + [] == c.out;
    assert Arrived(c.ram, l3);
  }

  // ----- the same in pieces

  /** Running from `cur` after `sent` has gone out completes what running from r does. */
  ghost predicate RunFrom(r: Ram, events: seq<Event>, cur: Ram, left: seq<Event>, sent: seq<Byte>) {
    Valid(r) && Valid(cur) && Run(r, events) == Sent(Run(cur, left).ram, sent + Run(cur, left).out)
  }

  lemma RunBegins(r: Ram, events: seq<Event>)
    requires Valid(r)
    ensures RunFrom(r, events, r, events, [])
  {
    hide Run, Valid;
    assert [] + Run(r, events).out == Run(r, events).out;
  }

  lemma RunStep(r: Ram, events: seq<Event>, cur: Ram, left: seq<Event>, sent: seq<Byte>)
    requires Ready(cur) && RunFrom(r, events, cur, left, sent) && left != []
    ensures RunFrom(r, events, Handle(cur, left[0]).ram, left[1..], sent + Handle(cur, left[0]).out)
  {
    hide Handle, Valid;
    var s := Handle(cur, left[0]);
    Assoc(sent, s.out, Run(s.ram, left[1..]).out);
  }

  lemma RunEnds(r: Ram, events: seq<Event>, cur: Ram, sent: seq<Byte>)
    requires RunFrom(r, events, cur, [], sent)
    ensures Run(r, events) == Sent(cur, sent)
  {
    hide Handle, Valid;
    assert sent + [] == sent;
  }

  lemma ReadyMeans(r: Ram)
    requires Ready(r)
    ensures Valid(r) && ValidBlocks(r.blocks, |r.flags|)
  {}

  lemma HandleWrite(r: Ram, p: Pos, data: Page)
    requires Ready(r)
    ensures
      if InRange(r.blocks, p) then Handle(r, Write(p, data)) == Sent(GuestWrite(r, p, data), []) && Ready(GuestWrite(r, p, data))
      else Handle(r, Write(p, data)) == Sent(r, [])
  {
    if InRange(r.blocks, p) {
      GuestWriteReady(r, p, data);
    }
  }

  lemma GuestWriteReady(r: Ram, p: Pos, data: Page)
    requires Ready(r) && InRange(r.blocks, p)
    ensures Ready(GuestWrite(r, p, data))
  {
    var r' := GuestWrite(r, p, data);
    GuestWriteValid(r, p, data);
    forall q | InRange(r'.blocks, q) ensures InRange(r.blocks, q) && (Dirty(r', q) <==> Dirty(r, q) || q == p) {
      GuestWriteDirties(r, p, data, q);
    }
  }

  lemma HandleIterate(r: Ram, limits: seq<bool>)
    requires Ready(r)
    ensures Handle(r, Iterate(limits)) == SaveLive(r, 2, limits)
  {}

  lemma SectionValid(l: Loader, s: seq<Byte>)
    requires ValidLoader(l)
    ensures LoadSection(l, s).Loaded? ==> ValidLoader(LoadSection(l, s).loader)
  {}
}
