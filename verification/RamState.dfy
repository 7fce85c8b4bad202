/** Guest RAM as the migration code sees it: the list of RAM blocks, the per-page dirty
    flags and the sender's cursor (`last_block`, `last_offset`).  RAM addresses are page
    aligned throughout, so positions count pages; `offset` is `Bytes(page)`. */
module RamState {
  import opened Common
  import opened Words

  const PAGE: nat := 4096
  /** `ram_addr_t` is a 32-bit `unsigned long`. */
  const RAM_ADDR_LIMIT: nat := 0x1_0000_0000
  const MIGRATION_DIRTY_FLAG: bv8 := 0x08

  function Bytes(pages: nat): nat {
    pages * 4096
  }

  type Page = p: seq<Byte> | |p| == PAGE witness seq(PAGE, i => 0)

  /** One RAMBlock: its name, the page number of its ram_addr offset, and its contents. */
  datatype RamBlock = RamBlock(id: seq<Byte>, base: nat, pages: seq<Page>)

  /** `last < 0` is the null `last_block`. */
  datatype Ram = Ram(blocks: seq<RamBlock>, flags: seq<bv8>, last: int, lastPage: nat)

  /** A page by block index and page index. */
  datatype Pos = Pos(block: nat, page: nat)

  predicate InRange(blocks: seq<RamBlock>, p: Pos) {
    p.block < |blocks| && p.page < |blocks[p.block].pages|
  }

  /** Pages in the first n blocks. */
  function Before(blocks: seq<RamBlock>, n: nat): nat
    requires n <= |blocks|
  {
    if n == 0 then 0 else Before(blocks, n - 1) + |blocks[n - 1].pages|
  }

  function TotalPages(blocks: seq<RamBlock>): nat {
    Before(blocks, |blocks|)
  }

  predicate ValidId(id: seq<Byte>) {
    |id| < 256 && forall i :: 0 <= i < |id| ==> id[i] != 0
  }

  predicate Disjoint(a: RamBlock, b: RamBlock) {
    a.base + |a.pages| <= b.base || b.base + |b.pages| <= a.base
  }

  /** What RAM block allocation guarantees: page-multiple sizes, disjoint ranges, unique names. */
  predicate ValidBlocks(blocks: seq<RamBlock>, flagCount: nat) {
    && |blocks| > 0
    && Bytes(TotalPages(blocks)) < RAM_ADDR_LIMIT
    && (forall i :: 0 <= i < |blocks| ==>
         |blocks[i].pages| > 0 && blocks[i].base + |blocks[i].pages| <= flagCount && ValidId(blocks[i].id))
    && (forall i, j :: 0 <= i < j < |blocks| ==> Disjoint(blocks[i], blocks[j]) && blocks[i].id != blocks[j].id)
  }

  predicate ValidCursor(r: Ram) {
    if r.last < 0 then r.lastPage == 0 else InRange(r.blocks, Pos(r.last, r.lastPage))
  }

  predicate Valid(r: Ram) {
    ValidBlocks(r.blocks, |r.flags|) && ValidCursor(r)
  }

  /** The index into phys_dirty of a page. */
  function FlagIndex(blocks: seq<RamBlock>, p: Pos): nat
    requires InRange(blocks, p)
  {
    blocks[p.block].base + p.page
  }

  predicate IsDirty(f: bv8) {
    f & MIGRATION_DIRTY_FLAG != 0
  }

  /** Every bit set in f is set in g. */
  predicate KeepsBits(f: bv8, g: bv8) {
    f & g == f
  }

  predicate Dirty(r: Ram, p: Pos)
    requires ValidBlocks(r.blocks, |r.flags|) && InRange(r.blocks, p)
  {
    IsDirty(r.flags[FlagIndex(r.blocks, p)])
  }

  ghost predicate AllDirty(r: Ram)
    requires ValidBlocks(r.blocks, |r.flags|)
  {
    forall p | InRange(r.blocks, p) :: Dirty(r, p)
  }

  ghost predicate NoneDirty(r: Ram)
    requires ValidBlocks(r.blocks, |r.flags|)
  {
    forall p | InRange(r.blocks, p) :: !Dirty(r, p)
  }

  lemma FlagIndexInjective(blocks: seq<RamBlock>, flagCount: nat, p: Pos, q: Pos)
    requires ValidBlocks(blocks, flagCount) && InRange(blocks, p) && InRange(blocks, q)
    ensures FlagIndex(blocks, p) == FlagIndex(blocks, q) <==> p == q
  {
    if p.block < q.block {
      assert Disjoint(blocks[p.block], blocks[q.block]);
    } else if q.block < p.block {
      assert Disjoint(blocks[q.block], blocks[p.block]);
    }
  }

  // ----- the cyclic order of pages

  function StartPos(r: Ram): (p: Pos)
    requires Valid(r)
    ensures InRange(r.blocks, p)
  {
    if r.last < 0 then Pos(0, 0) else Pos(r.last, r.lastPage)
  }

  /** The page after p: the next page of the block, or the first page of the next block. */
  function Next(blocks: seq<RamBlock>, p: Pos): (q: Pos)
    requires InRange(blocks, p)
    requires forall i :: 0 <= i < |blocks| ==> |blocks[i].pages| > 0
    ensures InRange(blocks, q)
  {
    if p.page + 1 < |blocks[p.block].pages| then Pos(p.block, p.page + 1)
    else if p.block + 1 < |blocks| then Pos(p.block + 1, 0)
    else Pos(0, 0)
  }

  function Ordinal(blocks: seq<RamBlock>, p: Pos): nat
    requires InRange(blocks, p)
  {
    Before(blocks, p.block) + p.page
  }

  lemma {:induction false} BeforeMonotone(blocks: seq<RamBlock>, i: nat, j: nat)
    requires i <= j <= |blocks|
    ensures Before(blocks, i) <= Before(blocks, j)
    decreases j
  {
    if i < j { BeforeMonotone(blocks, i, j - 1); }
  }

  lemma OrdinalBound(blocks: seq<RamBlock>, p: Pos)
    requires InRange(blocks, p)
    ensures Ordinal(blocks, p) < TotalPages(blocks)
  {
    BeforeMonotone(blocks, p.block + 1, |blocks|);
  }

  lemma OrdinalInjective(blocks: seq<RamBlock>, p: Pos, q: Pos)
    requires InRange(blocks, p) && InRange(blocks, q) && Ordinal(blocks, p) == Ordinal(blocks, q)
    ensures p == q
  {
    if p.block < q.block {
      BeforeMonotone(blocks, p.block + 1, q.block);
    } else if q.block < p.block {
      BeforeMonotone(blocks, q.block + 1, p.block);
    }
  }

  /** Steps from p to q in cyclic order. */
  function Distance(blocks: seq<RamBlock>, p: Pos, q: Pos): (d: nat)
    requires InRange(blocks, p) && InRange(blocks, q)
  {
    OrdinalBound(blocks, p);
    if Ordinal(blocks, p) <= Ordinal(blocks, q) then Ordinal(blocks, q) - Ordinal(blocks, p)
    else TotalPages(blocks) - Ordinal(blocks, p) + Ordinal(blocks, q)
  }

  lemma DistancePositive(blocks: seq<RamBlock>, p: Pos, q: Pos)
    requires InRange(blocks, p) && InRange(blocks, q) && p != q
    ensures Distance(blocks, p, q) > 0
  {
    OrdinalBound(blocks, p);
    if Ordinal(blocks, p) == Ordinal(blocks, q) {
      OrdinalInjective(blocks, p, q);
    }
  }

  lemma DistanceNext(blocks: seq<RamBlock>, p: Pos, q: Pos)
    requires InRange(blocks, p) && InRange(blocks, q)
    requires forall i :: 0 <= i < |blocks| ==> |blocks[i].pages| > 0
    ensures Distance(blocks, p, q) < TotalPages(blocks)
    ensures p != q ==> Distance(blocks, Next(blocks, p), q) == Distance(blocks, p, q) - 1
    ensures p == q ==> Distance(blocks, Next(blocks, p), q) == TotalPages(blocks) - 1
  {
    OrdinalBound(blocks, p);
    OrdinalBound(blocks, q);
    if p != q && Ordinal(blocks, p) == Ordinal(blocks, q) {
      OrdinalInjective(blocks, p, q);
    }
    assert Before(blocks, 0) == 0;
    if p.page + 1 == |blocks[p.block].pages| {
      assert Before(blocks, p.block + 1) == Ordinal(blocks, p) + 1;
    }
  }

  // ----- scanning for a dirty page

  /** The first dirty page among the n pages from p on. */
  function Scan(r: Ram, p: Pos, n: nat): (q: Option<Pos>)
    requires Valid(r) && InRange(r.blocks, p)
    ensures q.Some? ==> InRange(r.blocks, q.value) && Dirty(r, q.value)
    decreases n
  {
    if n == 0 then None
    else if Dirty(r, p) then Some(p)
    else Scan(r, Next(r.blocks, p), n - 1)
  }

  /** The first dirty page from the cursor on, over one full turn. */
  function NextDirty(r: Ram): Option<Pos>
    requires Valid(r)
  {
    Scan(r, StartPos(r), TotalPages(r.blocks))
  }

  lemma ScanStep(r: Ram, p: Pos, n: nat, m: nat)
    requires Valid(r) && InRange(r.blocks, p) && n == m + 1
    ensures Scan(r, p, n) == if Dirty(r, p) then Some(p) else Scan(r, Next(r.blocks, p), m)
  {}

  lemma {:induction false} ScanMisses(r: Ram, p: Pos, n: nat, q: Pos)
    requires Valid(r) && InRange(r.blocks, p) && InRange(r.blocks, q)
    requires Scan(r, p, n).None? && Distance(r.blocks, p, q) < n
    ensures !Dirty(r, q)
    decreases n
  {
    if p != q {
      DistanceNext(r.blocks, p, q);
      ScanMisses(r, Next(r.blocks, p), n - 1, q);
    }
  }

  /** A full turn finds nothing exactly when no page of any block is dirty. */
  lemma NextDirtyComplete(r: Ram)
    requires Valid(r)
    ensures NextDirty(r).None? <==> NoneDirty(r)
  {
    if NextDirty(r).None? {
      forall q | InRange(r.blocks, q) ensures !Dirty(r, q) {
        DistanceNext(r.blocks, StartPos(r), q);
        ScanMisses(r, StartPos(r), TotalPages(r.blocks), q);
      }
    }
  }

  /** The page found is the nearest dirty one in cyclic order. */
  lemma {:induction false} ScanNearest(r: Ram, p: Pos, n: nat, q: Pos)
    requires Valid(r) && InRange(r.blocks, p) && InRange(r.blocks, q)
    requires Scan(r, p, n).Some? && Dirty(r, q)
    ensures Distance(r.blocks, p, Scan(r, p, n).value) <= Distance(r.blocks, p, q)
    decreases n
  {
    DistanceNext(r.blocks, p, q);
    DistanceNext(r.blocks, p, Scan(r, p, n).value);
    if !Dirty(r, p) {
      ScanNearest(r, Next(r.blocks, p), n - 1, q);
    }
  }

  // ----- counting dirty pages

  /** Dirty flags among the n from index `base` on. */
  function DirtyIn(flags: seq<bv8>, base: nat, n: nat): nat
    requires base + n <= |flags|
  {
    if n == 0 then 0
    else DirtyIn(flags, base, n - 1) + (if IsDirty(flags[base + n - 1]) then 1 else 0)
  }

  /** Dirty pages in the first n blocks. */
  function DirtyUpTo(r: Ram, n: nat): nat
    requires ValidBlocks(r.blocks, |r.flags|) && n <= |r.blocks|
    decreases n
  {
    if n == 0 then 0
    else DirtyUpTo(r, n - 1) + DirtyIn(r.flags, r.blocks[n - 1].base, |r.blocks[n - 1].pages|)
  }

  function DirtyCount(r: Ram): nat
    requires ValidBlocks(r.blocks, |r.flags|)
  {
    DirtyUpTo(r, |r.blocks|)
  }

  lemma {:induction false} DirtyInUpdate(flags: seq<bv8>, base: nat, n: nat, g: nat, f: bv8)
    requires base + n <= |flags| && g < |flags| && IsDirty(flags[g]) && !IsDirty(f)
    ensures DirtyIn(flags[g := f], base, n) == DirtyIn(flags, base, n) - (if base <= g < base + n then 1 else 0)
    decreases n
  {
    if n > 0 { DirtyInUpdate(flags, base, n - 1, g, f); }
  }

  /** Flags of one page with the migration bit masked out. */
  function ClearDirty(r: Ram, p: Pos): (r': Ram)
    requires ValidBlocks(r.blocks, |r.flags|) && InRange(r.blocks, p)
  {
    var g := FlagIndex(r.blocks, p);
    r.(flags := r.flags[g := r.flags[g] & !MIGRATION_DIRTY_FLAG])
  }

  lemma MaskClears(f: bv8)
    ensures !IsDirty(f & !MIGRATION_DIRTY_FLAG)
  {}

  /** Masking one page's flag makes that page clean and changes no other page. */
  lemma ClearDirtyExact(r: Ram, p: Pos, q: Pos)
    requires ValidBlocks(r.blocks, |r.flags|) && InRange(r.blocks, p) && InRange(r.blocks, q)
    ensures Dirty(ClearDirty(r, p), q) <==> Dirty(r, q) && q != p
  {
    MaskClears(r.flags[FlagIndex(r.blocks, p)]);
    FlagIndexInjective(r.blocks, |r.flags|, p, q);
  }

  /** A page's flag lies in the flags of its own block only. */
  lemma FlagInBlock(r: Ram, p: Pos, m: nat)
    requires ValidBlocks(r.blocks, |r.flags|) && InRange(r.blocks, p) && m < |r.blocks|
    ensures var b, g := r.blocks[m], FlagIndex(r.blocks, p); b.base <= g < b.base + |b.pages| <==> p.block == m
  {
    var b := r.blocks[m];
    assert p.block < m ==> Disjoint(r.blocks[p.block], b);
    assert m < p.block ==> Disjoint(b, r.blocks[p.block]);
  }

  lemma {:induction false} ClearDirtyUpTo(r: Ram, p: Pos, n: nat)
    requires ValidBlocks(r.blocks, |r.flags|) && InRange(r.blocks, p) && Dirty(r, p) && n <= |r.blocks|
    ensures DirtyUpTo(ClearDirty(r, p), n) == DirtyUpTo(r, n) - (if p.block < n then 1 else 0)
    decreases n
  {
    hide IsDirty;
    if n > 0 {
      var g, m := FlagIndex(r.blocks, p), n - 1;
      MaskClears(r.flags[g]);
      var b := r.blocks[m];
      DirtyInUpdate(r.flags, b.base, |b.pages|, g, r.flags[g] & !MIGRATION_DIRTY_FLAG);
      ClearDirtyUpTo(r, p, m);
      FlagInBlock(r, p, m);
    }
  }

  lemma {:induction false} DirtyInZero(flags: seq<bv8>, base: nat, n: nat)
    requires base + n <= |flags|
    ensures DirtyIn(flags, base, n) == 0 <==> forall g :: base <= g < base + n ==> !IsDirty(flags[g])
    decreases n
  {
    if n > 0 { DirtyInZero(flags, base, n - 1); }
  }

  lemma DirtyInBlock(r: Ram, n: nat)
    requires ValidBlocks(r.blocks, |r.flags|) && n < |r.blocks|
    ensures DirtyIn(r.flags, r.blocks[n].base, |r.blocks[n].pages|) == 0
       <==> forall k: nat | k < |r.blocks[n].pages| :: !Dirty(r, Pos(n, k))
  {
    var b := r.blocks[n];
    DirtyInZero(r.flags, b.base, |b.pages|);
    forall g | b.base <= g < b.base + |b.pages|
      ensures Dirty(r, Pos(n, g - b.base)) <==> IsDirty(r.flags[g])
    {}
  }

  lemma {:induction false} DirtyUpToZero(r: Ram, n: nat)
    requires ValidBlocks(r.blocks, |r.flags|) && n <= |r.blocks|
    ensures DirtyUpTo(r, n) == 0 <==> forall p | InRange(r.blocks, p) && p.block < n :: !Dirty(r, p)
    decreases n
  {
    if n > 0 {
      DirtyUpToZero(r, n - 1);
      DirtyInBlock(r, n - 1);
    }
  }

  /** `ram_save_remaining` is zero exactly when nothing is dirty. */
  lemma DirtyCountZero(r: Ram)
    requires ValidBlocks(r.blocks, |r.flags|)
    ensures DirtyCount(r) == 0 <==> NoneDirty(r)
  {
    DirtyUpToZero(r, |r.blocks|);
  }
}
