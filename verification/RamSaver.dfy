/** The sending side in place: the cursor globals, the dirty-flag array and the output stream,
    updated by loops, proved against the functions of RamMigration. */
module RamSaver {
  import opened Common
  import opened Words
  import opened RamState
  import opened RamStream
  import RamMigration

  /** is_dup_page: compares the page 32 bits at a time with a word of four equal bytes. */
  method IsDupPage(page: Page) returns (dup: bool)
    ensures dup <==> IsDup(page)
  {
    var ch := page[0];
    var i := 0;
    while i < 1024
      invariant 0 <= i <= 1024
      invariant forall k :: 0 <= k < 4 * i ==> page[k] == ch
    {
      if Word32(page[4 * i], page[4 * i + 1], page[4 * i + 2], page[4 * i + 3]) != Word32(ch, ch, ch, ch) {
        Word32Injective(page[4 * i], page[4 * i + 1], page[4 * i + 2], page[4 * i + 3], ch);
        return false;
      }
      Word32Injective(page[4 * i], page[4 * i + 1], page[4 * i + 2], page[4 * i + 3], ch);
      i := i + 1;
    }
    return true;
  }

  function Word32(a: Byte, b: Byte, c: Byte, d: Byte): nat {
    a + 256 * (b + 256 * (c + 256 * d))
  }

  lemma Digit(a: Byte, x: nat, b: Byte, y: nat)
    ensures a + 256 * x == b + 256 * y <==> a == b && x == y
  {}

  lemma Word32Injective(a: Byte, b: Byte, c: Byte, d: Byte, ch: Byte)
    ensures Word32(a, b, c, d) == Word32(ch, ch, ch, ch) <==> a == ch && b == ch && c == ch && d == ch
  {
    Digit(c, d, ch, ch);
    Digit(b, c + 256 * d, ch, ch + 256 * ch);
    Digit(a, b + 256 * (c + 256 * d), ch, ch + 256 * (ch + 256 * ch));
  }

  function Masked(f: bv8, flags: bv8): bv8 {
    f & !flags
  }

  lemma PageHasFlag(r: Ram, p: Pos)
    requires Valid(r) && InRange(r.blocks, p)
    ensures FlagIndex(r.blocks, p) < |r.flags| && ValidId(r.blocks[p.block].id)
  {}

  class Saver {
    var blocks: seq<RamBlock>
    var physDirty: array<bv8>
    var last: int
    var lastPage: nat
    var out: seq<Byte>

    ghost function State(): Ram
      reads this, physDirty
    {
      Ram(blocks, physDirty[..], last, lastPage)
    }

    constructor (blocks: seq<RamBlock>, physDirty: array<bv8>)
      ensures this.blocks == blocks && this.physDirty == physDirty && out == [] && last == -1 && lastPage == 0
    {
      this.blocks := blocks;
      this.physDirty := physDirty;
      last, lastPage, out := -1, 0, [];
    }

    /** qemu_put_buffer */
    method Put(bytes: seq<Byte>)
      modifies `out
      ensures out == old(out) + bytes
    {
      out := out + bytes;
    }

    /** cpu_physical_memory_mask_dirty_range */
    method MaskDirtyRange(start: nat, count: nat, flags: bv8)
      requires start + count <= physDirty.Length
      modifies physDirty
      ensures forall g :: 0 <= g < physDirty.Length ==>
        physDirty[g] == if start <= g < start + count then Masked(old(physDirty[g]), flags) else old(physDirty[g])
    {
      hide Masked;
      for i := 0 to count
        invariant forall g :: 0 <= g < physDirty.Length ==>
          physDirty[g] == if start <= g < start + i then Masked(old(physDirty[g]), flags) else old(physDirty[g])
      {
        physDirty[start + i] := Masked(physDirty[start + i], flags);
      }
    }

    /** The scan of ram_save_block from the cursor.  The test against the cursor is only
        reached with a real cursor, and a scan that finds nothing ends on it. */
    method ScanDirty() returns (found: bool, block: nat, page: nat)
      requires RamMigration.Ready(State())
      ensures InRange(blocks, Pos(block, page))
      ensures NextDirty(State()) == if found then Some(Pos(block, page)) else None
      ensures !found ==> block == last && page == lastPage
    {
      hide RamMigration.Scanning, NextDirty, TotalPages;
      ghost var r := State();
      ghost var n, p := TotalPages(blocks), StartPos(r);
      RamMigration.ScanBegins(r);
      block, page := if last < 0 then 0 else last, lastPage;
      while true
        invariant p == Pos(block, page) && RamMigration.Scanning(r, p, n)
        decreases n
      {
        RamMigration.ScanningMeans(r, p, n);
        if physDirty[blocks[block].base + page] & MIGRATION_DIRTY_FLAG != 0 {
          return true, block, page;
        }
        ghost var q, m := Next(blocks, p), n - 1;
        RamMigration.ScanAdvances(r, p, n, m);
        page := page + 1;
        if page >= |blocks[block].pages| {
          page := 0;
          block := if block + 1 < |blocks| then block + 1 else 0;
        }
        assert q == Pos(block, page);
        if q != StartPos(r) {
          RamMigration.ScanningMeans(r, q, m);
        }
        FlagIndexInjective(blocks, physDirty.Length, q, StartPos(r));
        if blocks[block].base + page == blocks[last].base + lastPage {
          return false, block, page;
        }
        n, p := m, q;
      }
    }

    /** ram_save_block: sends the next dirty page in cyclic order, or reports 0 when a full
        turn finds none. */
    method SaveBlock() returns (sent: nat)
      requires RamMigration.Ready(State())
      modifies this, physDirty
      ensures blocks == old(blocks) && physDirty == old(physDirty)
      ensures State() == RamMigration.SaveBlock(old(State())).ram
      ensures out == old(out) + RamMigration.SaveBlock(old(State())).out
      ensures sent == 0 <==> NextDirty(old(State())).None?
    {
      var found, block, page := ScanDirty();
      if found {
        sent := SendPage(State(), block, page);
      } else {
        last, lastPage := block, page;
        sent := 0;
      }
    }

    /** The page's flag is masked. */
    method MaskPage(block: nat, page: nat)
      requires Valid(State()) && InRange(blocks, Pos(block, page))
      modifies physDirty
      ensures State() == ClearDirty(old(State()), Pos(block, page))
    {
      hide ValidBlocks;
      assert blocks[block].base + page < physDirty.Length by { PageHasFlag(State(), Pos(block, page)); }
      MaskDirtyRange(blocks[block].base + page, 1, MIGRATION_DIRTY_FLAG);
      assert physDirty[..] == ClearDirty(old(State()), Pos(block, page)).flags;
    }

    /** The record of a page: word, name unless the block is the one sent last, and contents. */
    method BuildRecord(block: nat, page: nat) returns (record: seq<Byte>, sent: nat)
      requires Valid(State()) && InRange(blocks, Pos(block, page))
      ensures record == PageRecord(State(), Pos(block, page))
      ensures sent == |Payload(blocks[block].pages[page])| > 0
    {
      hide Valid, Word, BitOr;
      assert ValidId(blocks[block].id) by { PageHasFlag(State(), Pos(block, page)); }
      var b := blocks[block];
      var p := b.pages[page];
      var cont := if block == last then FLAG_CONTINUE else 0;
      var dup := IsDupPage(p);
      record := Word(page, BitOr(cont, if dup then FLAG_COMPRESS else FLAG_PAGE));
      if cont == 0 {
        record := record + Name(b.id);
      } else {
        assert record + [] == record;
      }
      if dup {
        record := record + [p[0]];
        sent := 1;
      } else {
        record := record + p;
        sent := PAGE;
      }
    }

    /** The body of the loop for a dirty page: mask its flag, write its record, move the cursor. */
    method SendPage(ghost r: Ram, block: nat, page: nat) returns (sent: nat)
      requires r == State() && Valid(r) && InRange(blocks, Pos(block, page)) && Dirty(r, Pos(block, page))
      modifies this, physDirty
      ensures blocks == old(blocks) && physDirty == old(physDirty)
      ensures State() == ClearDirty(r, Pos(block, page)).(last := block, lastPage := page)
      ensures out == old(out) + PageRecord(r, Pos(block, page))
      ensures sent == |Payload(blocks[block].pages[page])| > 0
    {
      hide ClearDirty, PageRecord, Payload, Dirty;
      var record;
      record, sent := BuildRecord(block, page);
      MaskPage(block, page);
      out := out + record;
      last, lastPage := block, page;
    }

    /** The stage 1 loop over the pages of a block. */
    method MarkBlock(b: nat)
      requires ValidBlocks(blocks, physDirty.Length) && b < |blocks|
      modifies physDirty
      ensures physDirty[..] == RamMigration.MarkRange(old(physDirty[..]), blocks[b].base, |blocks[b].pages|)
    {
      for k := 0 to |blocks[b].pages|
        invariant physDirty[..] == RamMigration.MarkRange(old(physDirty[..]), blocks[b].base, k)
      {
        var g := blocks[b].base + k;
        if physDirty[g] & MIGRATION_DIRTY_FLAG == 0 {
          physDirty[g] := 0xff;
        }
      }
    }

    /** The stage 1 loops over blocks and pages. */
    method MarkPages()
      requires ValidBlocks(blocks, physDirty.Length)
      modifies physDirty
      ensures physDirty[..] == RamMigration.MarkBlocks(blocks, old(physDirty[..]), |blocks|)
    {
      hide RamMigration.MarkRange;
      for b := 0 to |blocks|
        invariant physDirty[..] == RamMigration.MarkBlocks(blocks, old(physDirty[..]), b)
      {
        MarkBlock(b);
      }
    }

    /** Stage 1 makes sure every page is marked dirty, and loses no other mark. */
    method MarkAllDirty()
      requires ValidBlocks(blocks, physDirty.Length)
      modifies physDirty
      ensures physDirty[..] == RamMigration.MarkBlocks(blocks, old(physDirty[..]), |blocks|)
      ensures AllDirty(State()) && forall g :: 0 <= g < physDirty.Length ==> KeepsBits(old(physDirty[..])[g], physDirty[g])
    {
      hide KeepsBits, IsDirty, RamMigration.MarkBlocks;
      RamMigration.MarkBlocksMarksAll(blocks, physDirty[..]);
      MarkPages();
    }

    /** The guest writes a page: the page changes and every flag but the code one is set. */
    method GuestStore(p: Pos, data: Page)
      requires ValidBlocks(blocks, physDirty.Length) && InRange(blocks, p)
      modifies this`blocks, physDirty
      ensures State() == RamMigration.GuestWrite(old(State()), p, data)
    {
      var g := blocks[p.block].base + p.page;
      physDirty[g] := physDirty[g] | 0xfd;
      var b := blocks[p.block];
      blocks := blocks[p.block := b.(pages := b.pages[p.page := data])];
    }

    /** What stage 1 does first: rewind the cursor, mark all of RAM dirty, send the header. */
    method Begin()
      requires ValidBlocks(blocks, physDirty.Length)
      modifies this, physDirty
      ensures blocks == old(blocks) && physDirty == old(physDirty)
      ensures State() == RamMigration.Rewind(old(State())) && RamMigration.Ready(State())
      ensures out == old(out) + Header(blocks)
    {
      RamMigration.RewindReady(State());
      last, lastPage := -1, 0;
      MarkAllDirty();
      out := out + Header(blocks);
    }

    /** The rest of a call: rate-limited pages, in stage 3 all remaining ones, and the EOS mark. */
    method SaveSection(stage: int, limits: seq<bool>)
      requires RamMigration.Ready(State())
      modifies this, physDirty
      ensures blocks == old(blocks) && physDirty == old(physDirty)
      ensures State() == RamMigration.SectionBody(old(State()), stage, limits).ram && RamMigration.Ready(State())
      ensures out == old(out) + RamMigration.SectionBody(old(State()), stage, limits).out
    {
      ghost var s := RamMigration.SaveSome(State(), limits);
      SaveSome(limits);
      ghost var t := if stage == 3 then RamMigration.SaveAll(s.ram) else RamMigration.Sent(s.ram, []);
      if stage == 3 {
        SaveAll();
      }
      assert State() == t.ram && out == old(out) + s.out + t.out;
      Reassociate(old(out), s.out, t.out, Word(0, FLAG_EOS));
      Assoc(s.out, t.out, Word(0, FLAG_EOS));
      Put(Word(0, FLAG_EOS));
    }

    /** ram_save_live in stage 1, 2 or 3; `limits` are the answers of qemu_file_rate_limit. */
    method SaveLive(stage: int, limits: seq<bool>)
      requires if stage == 1 then ValidBlocks(blocks, physDirty.Length) else RamMigration.Ready(State())
      modifies this, physDirty
      ensures blocks == old(blocks) && physDirty == old(physDirty)
      ensures State() == RamMigration.SaveLive(old(State()), stage, limits).ram && RamMigration.Ready(State())
      ensures out == old(out) + RamMigration.SaveLive(old(State()), stage, limits).out
    {
      hide RamMigration.Ready, RamMigration.SectionBody;
      ghost var r := State();
      if stage == 1 {
        Begin();
        Assoc(old(out), Header(blocks), RamMigration.SectionBody(State(), stage, limits).out);
      }
      ghost var r' := State();
      SaveSection(stage, limits);
    }

    /** The rate-limited loop of ram_save_live. */
    method SaveSome(limits: seq<bool>)
      requires RamMigration.Ready(State())
      modifies this, physDirty
      ensures blocks == old(blocks) && physDirty == old(physDirty) && RamMigration.Ready(State())
      ensures State() == RamMigration.SaveSome(old(State()), limits).ram
      ensures out == old(out) + RamMigration.SaveSome(old(State()), limits).out
    {
      ghost var r, sent := State(), [];
      ghost var cur := r;
      var asked := limits;
      assert RamMigration.SomeFrom(r, limits, r, limits, []);
      while asked != [] && !asked[0]
        invariant blocks == old(blocks) && physDirty == old(physDirty)
        invariant State() == cur && RamMigration.Ready(cur)
        invariant out == old(out) + sent
        invariant RamMigration.SomeFrom(r, limits, cur, asked, sent)
        decreases |asked|
      {
        RamMigration.SomeStep(r, limits, cur, asked, sent);
        NextDirtyComplete(cur);
        var bytes := SaveBlock();
        if bytes == 0 {
          return;
        }
        Assoc(old(out), sent, RamMigration.SaveBlock(cur).out);
        sent := sent + RamMigration.SaveBlock(cur).out;
        cur := RamMigration.SaveBlock(cur).ram;
        asked := asked[1..];
      }
      assert sent + [] == sent;
    }

    /** The stage 3 loop, which ignores the rate limit; it ends because every page sent leaves
        one page fewer dirty. */
    method SaveAll()
      requires RamMigration.Ready(State())
      modifies this, physDirty
      ensures blocks == old(blocks) && physDirty == old(physDirty) && RamMigration.Ready(State())
      ensures State() == RamMigration.SaveAll(old(State())).ram
      ensures out == old(out) + RamMigration.SaveAll(old(State())).out && NoneDirty(State())
    {
      hide RamMigration.AllFrom, RamMigration.SaveAll, DirtyCount;
      ghost var r, sent := State(), [];
      ghost var cur := r;
      RamMigration.AllBegins(r);
      while true
        invariant blocks == old(blocks) && physDirty == old(physDirty)
        invariant State() == cur && RamMigration.Ready(cur)
        invariant out == old(out) + sent
        invariant RamMigration.AllFrom(r, cur, sent)
        decreases DirtyCount(cur)
      {
        RamMigration.AllStep(r, cur, sent);
        NextDirtyComplete(cur);
        var bytes := SaveBlock();
        if bytes == 0 {
          return;
        }
        Assoc(old(out), sent, RamMigration.SaveBlock(cur).out);
        sent := sent + RamMigration.SaveBlock(cur).out;
        cur := RamMigration.SaveBlock(cur).ram;
      }
    }

    /** ram_save_remaining */
    method Remaining() returns (count: nat)
      requires ValidBlocks(blocks, physDirty.Length)
      ensures count == DirtyCount(State())
    {
      count := 0;
      for b := 0 to |blocks|
        invariant count == DirtyUpTo(State(), b)
      {
        for k := 0 to |blocks[b].pages|
          invariant count == DirtyUpTo(State(), b) + DirtyIn(physDirty[..], blocks[b].base, k)
        {
          if physDirty[blocks[b].base + k] & MIGRATION_DIRTY_FLAG != 0 {
            count := count + 1;
          }
        }
      }
    }
  }
}
