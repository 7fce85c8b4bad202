/** The RAM section of the migration stream: what the sender writes for one page and for
    the block table, and what the receiver does with arbitrary bytes. */
module RamStream {
  import opened Common
  import opened Words
  import opened RamState

  const FLAG_COMPRESS: nat := 0x02
  const FLAG_MEM_SIZE: nat := 0x04
  const FLAG_PAGE: nat := 0x08
  const FLAG_EOS: nat := 0x10
  const FLAG_CONTINUE: nat := 0x20

  predicate IsDup(page: Page) {
    forall i :: 0 <= i < PAGE ==> page[i] == page[0]
  }

  function Fill(ch: Byte): (p: Page) {
    seq(PAGE, i => ch)
  }

  // ----- sender

  function Name(id: seq<Byte>): seq<Byte>
    requires ValidId(id)
  {
    [|id|] + id
  }

  function Word(page: nat, flags: nat): seq<Byte> {
    BigEndian(BitOr(Bytes(page), flags), 8)
  }

  function Payload(page: Page): seq<Byte> {
    if IsDup(page) then [page[0]] else page
  }

  /** The record for page p: offset and flags, the block's name unless it is the block of
      the previous record, then one byte or the whole page. */
  function PageRecord(r: Ram, p: Pos): seq<Byte>
    requires Valid(r) && InRange(r.blocks, p)
  {
    var page := r.blocks[p.block].pages[p.page];
    var cont := if p.block == r.last then FLAG_CONTINUE else 0;
    Word(p.page, BitOr(cont, if IsDup(page) then FLAG_COMPRESS else FLAG_PAGE))
      + (if cont == 0 then Name(r.blocks[p.block].id) else [])
      + Payload(page)
  }

  function TableFrom(blocks: seq<RamBlock>, i: nat): seq<Byte>
    requires i <= |blocks| && forall j :: 0 <= j < |blocks| ==> ValidId(blocks[j].id)
    decreases |blocks| - i
  {
    if i == |blocks| then []
    else Row(blocks[i]) + TableFrom(blocks, i + 1)
  }

  /** The stage 1 header: total size and the table of block names and lengths. */
  function Header(blocks: seq<RamBlock>): seq<Byte>
    requires forall j :: 0 <= j < |blocks| ==> ValidId(blocks[j].id)
  {
    Word(TotalPages(blocks), FLAG_MEM_SIZE) + TableFrom(blocks, 0)
  }

  // ----- receiver

  /** The receiver's blocks and its remembered block, the static `block` of
      host_from_stream_offset; negative is null. */
  datatype Loader = Loader(blocks: seq<RamBlock>, cur: int)

  /** Failed is any error return; Undefined is a write through a null or out-of-range host pointer. */
  datatype Outcome = Loaded(loader: Loader, rest: seq<Byte>) | Failed | Undefined

  datatype RecordOutcome = Parsed(loader: Loader, rest: seq<Byte>, eos: bool) | BadRecord | WildRecord

  datatype Host = Host(cur: int, rest: seq<Byte>) | Truncated

  predicate ValidLoader(l: Loader) {
    -1 <= l.cur < |l.blocks|
  }

  /** The bytes up to the first NUL, which is what strncmp compares. */
  function CStr(s: seq<Byte>): seq<Byte> {
    if s == [] || s[0] == 0 then [] else [s[0]] + CStr(s[1..])
  }

  /** The first block at or after i with the given name, or -1. */
  function FindFrom(blocks: seq<RamBlock>, id: seq<Byte>, i: nat): (j: int)
    requires i <= |blocks|
    ensures -1 <= j < |blocks|
    ensures j >= 0 ==> i <= j && blocks[j].id == id && forall k :: i <= k < j ==> blocks[k].id != id
    ensures j < 0 ==> forall k :: i <= k < |blocks| ==> blocks[k].id != id
    decreases |blocks| - i
  {
    if i == |blocks| then -1
    else if blocks[i].id == id then i
    else FindFrom(blocks, id, i + 1)
  }

  function Find(blocks: seq<RamBlock>, id: seq<Byte>): (j: int)
    ensures -1 <= j < |blocks|
    ensures j >= 0 ==> blocks[j].id == id
  {
    FindFrom(blocks, id, 0)
  }

  /** The length-prefixed name at the head of s, and what follows it. */
  function ReadName(s: seq<Byte>): Option<(seq<Byte>, seq<Byte>)> {
    if |s| < 1 || |s| - 1 < s[0] then None
    else Some((CStr(s[1..][..s[0]]), s[1..][s[0]..]))
  }

  function HostFromStream(l: Loader, s: seq<Byte>, flags: nat): Host {
    if HasFlag(flags, FLAG_CONTINUE) then Host(l.cur, s)
    else match ReadName(s)
      case None => Truncated
      case Some((id, rest)) => Host(Find(l.blocks, id), rest)
  }

  /** Reads one row of the block table and subtracts its length from what is still to be
      accounted for; unsigned subtraction wraps. */
  function CheckRow(l: Loader, total: nat, s: seq<Byte>): (r: Option<(nat, seq<Byte>)>)
    ensures r.Some? ==> r.value.0 < RAM_ADDR_LIMIT && |r.value.1| < |s|
  {
    match ReadName(s)
    case None => None
    case Some((id, rest)) =>
      if |rest| < 8 then None
      else
        var length := FromBigEndian(rest[..8]) % 0x1_0000_0000;
        var j := Find(l.blocks, id);
        if j < 0 || Bytes(|l.blocks[j].pages|) != length then None
        else Some(((total - length) % 0x1_0000_0000, rest[8..]))
  }

  /** Checks the block table until `total` bytes are accounted for. */
  function CheckTable(l: Loader, total: nat, s: seq<Byte>): (r: Option<seq<Byte>>)
    ensures r.Some? ==> |r.value| <= |s|
    decreases |s|
  {
    if total == 0 then Some(s)
    else match CheckRow(l, total, s)
      case None => None
      case Some((left, rest)) => CheckTable(l, left, rest)
  }

  function StorePage(l: Loader, cur: int, page: nat, data: Page): Loader
    requires 0 <= cur < |l.blocks| && page < |l.blocks[cur].pages|
  {
    var b := l.blocks[cur];
    l.(blocks := l.blocks[cur := b.(pages := b.pages[page := data])], cur := cur)
  }

  /** The body of a COMPRESS or PAGE record. */
  function LoadPage(l: Loader, page: nat, flags: nat, s: seq<Byte>): (o: RecordOutcome)
    requires ValidLoader(l)
    ensures o.Parsed? ==> ValidLoader(o.loader) && |o.rest| <= |s|
  {
    match HostFromStream(l, s, flags)
    case Truncated => BadRecord
    case Host(cur, rest) =>
      if cur < 0 then (if HasFlag(flags, FLAG_COMPRESS) then BadRecord else WildRecord)
      else if page >= |l.blocks[cur].pages| then WildRecord
      else if HasFlag(flags, FLAG_COMPRESS) then
        if |rest| < 1 then BadRecord
        else Parsed(StorePage(l, cur, page, Fill(rest[0])), rest[1..], HasFlag(flags, FLAG_EOS))
      else if |rest| < PAGE then BadRecord
      else Parsed(StorePage(l, cur, page, rest[..PAGE]), rest[PAGE..], HasFlag(flags, FLAG_EOS))
  }

  /** What ram_load does with one flagged offset and the bytes after it. */
  function Dispatch(l: Loader, page: nat, flags: nat, s: seq<Byte>): (o: RecordOutcome)
    requires ValidLoader(l) && Bytes(page) < RAM_ADDR_LIMIT
    ensures o.Parsed? ==> ValidLoader(o.loader) && |o.rest| <= |s|
  {
    var checked := if HasFlag(flags, FLAG_MEM_SIZE) then CheckTable(l, Bytes(page), s) else Some(s);
    match checked
    case None => BadRecord
    case Some(rest) =>
      if HasFlag(flags, FLAG_COMPRESS) || HasFlag(flags, FLAG_PAGE) then LoadPage(l, page, flags, rest)
      else Parsed(l, rest, HasFlag(flags, FLAG_EOS))
  }

  /** One iteration of ram_load for stream version 4. */
  function LoadRecord(l: Loader, s: seq<Byte>): (o: RecordOutcome)
    requires ValidLoader(l)
    ensures o.Parsed? ==> ValidLoader(o.loader) && |o.rest| < |s|
  {
    if |s| < 8 then BadRecord
    else
      var v := FromBigEndian(s[..8]) % 0x1_0000_0000;
      Dispatch(l, v / 4096, v % 4096, s[8..])
  }

  /** One call of ram_load: records up to and including the first with the EOS flag. */
  function LoadSection(l: Loader, s: seq<Byte>): (o: Outcome)
    requires ValidLoader(l)
    ensures o.Loaded? ==> ValidLoader(o.loader) && |o.rest| < |s|
    decreases |s|
  {
    match LoadRecord(l, s)
    case BadRecord => Failed
    case WildRecord => Undefined
    case Parsed(l', rest, eos) => if eos then Loaded(l', rest) else LoadSection(l', rest)
  }

  // ----- decoding what was encoded

  lemma {:induction false} CStrOfId(id: seq<Byte>)
    requires forall i :: 0 <= i < |id| ==> id[i] != 0
    ensures CStr(id) == id
  {
    if id != [] { CStrOfId(id[1..]); }
  }

  lemma ReadNameOfName(id: seq<Byte>, rest: seq<Byte>)
    requires ValidId(id)
    ensures ReadName(Name(id) + rest) == Some((id, rest))
  {
    var s := Name(id) + rest;
    assert s[1..][..s[0]] == id && s[1..][s[0]..] == rest;
    CStrOfId(id);
  }

  lemma Pow256Of8()
    ensures Pow256(8) == 0x1_0000_0000_0000_0000
  {
    assert Pow256(4) == 0x1_0000_0000;
    assert Pow256(6) == 0x1_0000_0000_0000;
  }

  lemma Pow2Of12()
    ensures Pow2(12) == PAGE
  {
    assert Pow2(6) == 64;
  }

  lemma OrPage(page: nat, flags: nat)
    requires flags < PAGE
    ensures BitOr(Bytes(page), flags) == Bytes(page) + flags
  {
    Pow2Of12();
    assert page * Pow2(12) == Bytes(page);
    OrAligned(page, 12, flags);
  }

  /** Offset and flags survive the packed word. */
  lemma WordDecodes(page: nat, flags: nat)
    requires Bytes(page) < RAM_ADDR_LIMIT && flags < PAGE
    ensures FromBigEndian(Word(page, flags)) == Bytes(page) + flags < RAM_ADDR_LIMIT
  {
    OrPage(page, flags);
    Pow256Of8();
    BigEndianRoundTrip(Bytes(page) + flags, 8);
  }

  lemma SplitWord(page: nat, flags: nat, v: nat)
    requires v == Bytes(page) + flags < RAM_ADDR_LIMIT && flags < PAGE
    ensures v % 0x1_0000_0000 / 4096 == page && v % 0x1_0000_0000 % 4096 == flags
  {}

  lemma LoadRecordOfWord(l: Loader, page: nat, flags: nat, rest: seq<Byte>)
    requires ValidLoader(l) && Bytes(page) < RAM_ADDR_LIMIT && flags < PAGE
    ensures LoadRecord(l, Word(page, flags) + rest) == Dispatch(l, page, flags, rest)
  {
    var s := Word(page, flags) + rest;
    assert s[..8] == Word(page, flags) && s[8..] == rest;
    WordDecodes(page, flags);
    SplitWord(page, flags, FromBigEndian(s[..8]));
  }

  /** Repeated-byte compression loses nothing. */
  lemma DupFill(page: Page)
    requires IsDup(page)
    ensures Fill(page[0]) == page
  {}

  lemma FlagBits(cont: nat, kind: nat)
    requires cont == 0 || cont == FLAG_CONTINUE
    requires kind == FLAG_COMPRESS || kind == FLAG_PAGE
    ensures BitOr(cont, kind) == cont + kind < PAGE
    ensures HasFlag(cont + kind, FLAG_CONTINUE) <==> cont != 0
    ensures HasFlag(cont + kind, FLAG_COMPRESS) <==> kind == FLAG_COMPRESS
    ensures HasFlag(cont + kind, FLAG_PAGE) <==> kind == FLAG_PAGE
    ensures !HasFlag(cont + kind, FLAG_EOS) && !HasFlag(cont + kind, FLAG_MEM_SIZE)
  {
    assert BitOr(0x20, 0x02) == 0x22 && BitOr(0x20, 0x08) == 0x28;
  }

  /** The receiver's block of the same name as block b of the sender. */
  function Mirror(r: Ram, l: Loader, b: nat): (j: int)
    requires b < |r.blocks|
    ensures -1 <= j < |l.blocks|
  {
    Find(l.blocks, r.blocks[b].id)
  }

  lemma LoadPageBody(r: Ram, l: Loader, p: Pos, cont: nat, kind: nat, rest: seq<Byte>)
    requires Valid(r) && InRange(r.blocks, p) && ValidLoader(l)
    requires 0 <= Mirror(r, l, p.block) && p.page < |l.blocks[Mirror(r, l, p.block)].pages|
    requires cont == 0 || (cont == FLAG_CONTINUE && l.cur == Mirror(r, l, p.block))
    requires kind == if IsDup(r.blocks[p.block].pages[p.page]) then FLAG_COMPRESS else FLAG_PAGE
    ensures
      var page := r.blocks[p.block].pages[p.page];
      LoadPage(l, p.page, cont + kind, (if cont == 0 then Name(r.blocks[p.block].id) else []) + (Payload(page) + rest))
      == Parsed(StorePage(l, Mirror(r, l, p.block), p.page, page), rest, false)
  {
    var page := r.blocks[p.block].pages[p.page];
    FlagBits(cont, kind);
    var tail := Payload(page) + rest;
    ReadNameOfName(r.blocks[p.block].id, tail);
    assert [] + tail == tail;
    if IsDup(page) {
      DupFill(page);
      assert tail[1..] == rest;
    } else {
      assert tail[..PAGE] == page && tail[PAGE..] == rest;
    }
  }

  lemma DispatchPage(l: Loader, page: nat, cont: nat, kind: nat, s: seq<Byte>)
    requires ValidLoader(l) && Bytes(page) < RAM_ADDR_LIMIT
    requires cont == 0 || cont == FLAG_CONTINUE
    requires kind == FLAG_COMPRESS || kind == FLAG_PAGE
    ensures Dispatch(l, page, cont + kind, s) == LoadPage(l, page, cont + kind, s)
  {
    FlagBits(cont, kind);
  }

  lemma Reassociate(a: seq<Byte>, b: seq<Byte>, c: seq<Byte>, d: seq<Byte>)
    ensures a + b + c + d == a + (b + (c + d))
  {}

  /** The receiver's memory after a page record is its memory with exactly that page of the
      block of that name replaced by the sender's page, and the record is consumed exactly. */
  lemma PageRecordLoads(r: Ram, l: Loader, p: Pos, rest: seq<Byte>)
    requires Valid(r) && InRange(r.blocks, p) && ValidLoader(l)
    requires 0 <= Mirror(r, l, p.block) && p.page < |l.blocks[Mirror(r, l, p.block)].pages|
    requires r.last == p.block ==> l.cur == Mirror(r, l, p.block)
    ensures LoadRecord(l, PageRecord(r, p) + rest)
         == Parsed(StorePage(l, Mirror(r, l, p.block), p.page, r.blocks[p.block].pages[p.page]), rest, false)
  {
    var page := r.blocks[p.block].pages[p.page];
    var cont := if p.block == r.last then FLAG_CONTINUE else 0;
    var kind := if IsDup(page) then FLAG_COMPRESS else FLAG_PAGE;
    var name := if cont == 0 then Name(r.blocks[p.block].id) else [];
    var tail := name + (Payload(page) + rest);
    FlagBits(cont, kind);
    PageFits(r, p);
    calc {
      LoadRecord(l, PageRecord(r, p) + rest);
      { Reassociate(Word(p.page, cont + kind), name, Payload(page), rest); }
      LoadRecord(l, Word(p.page, cont + kind) + tail);
      { LoadRecordOfWord(l, p.page, cont + kind, tail); }
      Dispatch(l, p.page, cont + kind, tail);
      { DispatchPage(l, p.page, cont, kind, tail); }
      LoadPage(l, p.page, cont + kind, tail);
      { LoadPageBody(r, l, p, cont, kind, rest); }
      Parsed(StorePage(l, Mirror(r, l, p.block), p.page, page), rest, false);
    }
  }

  lemma PageFits(r: Ram, p: Pos)
    requires Valid(r) && InRange(r.blocks, p)
    ensures Bytes(p.page) < RAM_ADDR_LIMIT && Bytes(|r.blocks[p.block].pages|) < RAM_ADDR_LIMIT
  {
    BeforeMonotone(r.blocks, p.block + 1, |r.blocks|);
  }

  lemma EosLoads(l: Loader, rest: seq<Byte>)
    requires ValidLoader(l)
    ensures LoadRecord(l, Word(0, FLAG_EOS) + rest) == Parsed(l, rest, true)
  {
    calc {
      LoadRecord(l, Word(0, FLAG_EOS) + rest);
      { LoadRecordOfWord(l, 0, FLAG_EOS, rest); }
      Dispatch(l, 0, FLAG_EOS, rest);
      Parsed(l, rest, true);
    }
  }

  /** The receiver has a block of the same name and size for every block of the sender. */
  predicate Compatible(blocks: seq<RamBlock>, l: Loader) {
    forall i :: 0 <= i < |blocks| ==>
      var j := Find(l.blocks, blocks[i].id);
      j >= 0 && |l.blocks[j].pages| == |blocks[i].pages|
  }

  /** One row of the block table. */
  function Row(b: RamBlock): seq<Byte>
    requires ValidId(b.id)
  {
    Name(b.id) + BigEndian(Bytes(|b.pages|), 8)
  }

  lemma LengthDecodes(length: nat, tail: seq<Byte>)
    requires length < RAM_ADDR_LIMIT
    ensures (BigEndian(length, 8) + tail)[8..] == tail
    ensures FromBigEndian((BigEndian(length, 8) + tail)[..8]) % 0x1_0000_0000 == length
  {
    assert (BigEndian(length, 8) + tail)[..8] == BigEndian(length, 8);
    Pow256Of8();
    BigEndianRoundTrip(length, 8);
  }

  lemma RowChecks(b: RamBlock, l: Loader, total: nat, left: nat, tail: seq<Byte>)
    requires ValidId(b.id) && total == Bytes(|b.pages|) + left < RAM_ADDR_LIMIT
    requires var j := Find(l.blocks, b.id); j >= 0 && |l.blocks[j].pages| == |b.pages|
    ensures CheckRow(l, total, Row(b) + tail) == Some((left, tail))
  {
    hide BigEndian, FromBigEndian, Name, ReadName, Find, ValidId;
    var length := Bytes(|b.pages|);
    var s := BigEndian(length, 8) + tail;
    calc {
      CheckRow(l, total, Row(b) + tail);
      { assert Row(b) + tail == Name(b.id) + s; }
      CheckRow(l, total, Name(b.id) + s);
      { ReadNameOfName(b.id, s); LengthDecodes(length, tail); }
      Some((left, tail));
    }
  }

  /** Bytes in the blocks from i on. */
  function BytesFrom(blocks: seq<RamBlock>, i: nat): nat
    requires i <= |blocks|
    decreases |blocks| - i
  {
    if i == |blocks| then 0 else Bytes(|blocks[i].pages|) + BytesFrom(blocks, i + 1)
  }

  lemma {:induction false} BytesFromBefore(blocks: seq<RamBlock>, i: nat)
    requires i <= |blocks|
    ensures Bytes(Before(blocks, i)) + BytesFrom(blocks, i) == Bytes(TotalPages(blocks))
    decreases |blocks| - i
  {
    if i < |blocks| { BytesFromBefore(blocks, i + 1); }
  }

  lemma {:induction false} TableChecks(blocks: seq<RamBlock>, l: Loader, i: nat, rest: seq<Byte>)
    requires i <= |blocks| && Compatible(blocks, l)
    requires forall j :: 0 <= j < |blocks| ==> ValidId(blocks[j].id) && |blocks[j].pages| > 0
    requires BytesFrom(blocks, i) < RAM_ADDR_LIMIT
    ensures CheckTable(l, BytesFrom(blocks, i), TableFrom(blocks, i) + rest) == Some(rest)
    decreases |blocks| - i
  {
    hide CheckRow, Row, ValidId, Find;
    if i == |blocks| {
      assert TableFrom(blocks, i) + rest == rest;
    } else {
      var tail := TableFrom(blocks, i + 1) + rest;
      Assoc(Row(blocks[i]), TableFrom(blocks, i + 1), rest);
      RowChecks(blocks[i], l, BytesFrom(blocks, i), BytesFrom(blocks, i + 1), tail);
      TableChecks(blocks, l, i + 1, rest);
    }
  }

  lemma Assoc(a: seq<Byte>, b: seq<Byte>, c: seq<Byte>)
    ensures a + b + c == a + (b + c)
  {}

  lemma DispatchTable(l: Loader, pages: nat, s: seq<Byte>, rest: seq<Byte>)
    requires ValidLoader(l) && Bytes(pages) < RAM_ADDR_LIMIT
    requires CheckTable(l, Bytes(pages), s) == Some(rest)
    ensures Dispatch(l, pages, FLAG_MEM_SIZE, s) == Parsed(l, rest, false)
  {
    hide CheckTable, LoadPage;
  }

  lemma HeaderLoads(blocks: seq<RamBlock>, flagCount: nat, l: Loader, rest: seq<Byte>)
    requires ValidBlocks(blocks, flagCount) && Compatible(blocks, l) && ValidLoader(l)
    ensures LoadRecord(l, Header(blocks) + rest) == Parsed(l, rest, false)
  {
    hide LoadRecord, Dispatch, CheckTable, TableFrom, Word, Compatible, ValidLoader;
    var total := TotalPages(blocks);
    var table := TableFrom(blocks, 0) + rest;
    calc {
      LoadRecord(l, Header(blocks) + rest);
      { Assoc(Word(total, FLAG_MEM_SIZE), TableFrom(blocks, 0), rest); }
      LoadRecord(l, Word(total, FLAG_MEM_SIZE) + table);
      { LoadRecordOfWord(l, total, FLAG_MEM_SIZE, table); }
      Dispatch(l, total, FLAG_MEM_SIZE, table);
      {
        BytesFromBefore(blocks, 0);
        TableChecks(blocks, l, 0, rest);
        DispatchTable(l, total, table, rest);
      }
      Parsed(l, rest, false);
    }
  }
}
