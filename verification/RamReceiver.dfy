/** The receiving side in place: ram_load and its static `block`, proved against the functions
    of RamStream for every byte sequence. */
module RamReceiver {
  import opened Common
  import opened Words
  import opened RamState
  import opened RamStream

  /** Ok is a zero return, Error a negative one; Wild means the call would have written
      through a null or out-of-range host pointer. */
  datatype Status = Ok | Error | Wild

  class Receiver {
    var blocks: seq<RamBlock>
    var cur: int

    ghost function State(): Loader
      reads this
    {
      Loader(blocks, cur)
    }

    constructor (blocks: seq<RamBlock>)
      ensures this.blocks == blocks && cur == -1
    {
      this.blocks, cur := blocks, -1;
    }

    /** The QLIST_FOREACH over block names. */
    method FindBlock(id: seq<Byte>) returns (j: int)
      ensures j == Find(blocks, id)
    {
      for i := 0 to |blocks|
        invariant Find(blocks, id) == FindFrom(blocks, id, i)
      {
        if blocks[i].id == id {
          return i;
        }
      }
      return -1;
    }

    /** The block list check of ram_load. */
    method CheckBlocks(total: nat, s: seq<Byte>) returns (ok: bool, rest: seq<Byte>)
      ensures CheckTable(State(), total, s) == if ok then Some(rest) else None
    {
      var left: nat := total;
      rest := s;
      while left != 0
        invariant CheckTable(State(), total, s) == CheckTable(State(), left, rest)
        decreases |rest|
      {
        var name := ReadName(rest);
        if name.None? || |name.value.1| < 8 {
          return false, rest;
        }
        var tail := name.value.1;
        var length := FromBigEndian(tail[..8]) % 0x1_0000_0000;
        var j := FindBlock(name.value.0);
        if j < 0 || Bytes(|blocks[j].pages|) != length {
          return false, rest;
        }
        ghost var row := CheckRow(State(), left, rest).value;
        left, rest := (left - length) % 0x1_0000_0000, tail[8..];
        assert row == (left, rest);
      }
      return true, rest;
    }

    /** The COMPRESS and PAGE branches, with host_from_stream_offset. */
    method LoadPage(page: nat, flags: nat, s: seq<Byte>) returns (status: Status, rest: seq<Byte>)
      requires ValidLoader(State())
      modifies this
      ensures ValidLoader(State())
      ensures match RamStream.LoadPage(old(State()), page, flags, s)
              case BadRecord => status == Error
              case WildRecord => status == Wild
              case Parsed(l, r, eos) => status == Ok && State() == l && rest == r && eos == HasFlag(flags, FLAG_EOS)
    {
      rest := s;
      if !HasFlag(flags, FLAG_CONTINUE) {
        var name := ReadName(s);
        if name.None? {
          return Error, rest;
        }
        rest := name.value.1;
        cur := FindBlock(name.value.0);
      }
      if cur < 0 {
        return if HasFlag(flags, FLAG_COMPRESS) then Error else Wild, rest;
      }
      if page >= |blocks[cur].pages| {
        return Wild, rest;
      }
      var b := blocks[cur];
      if HasFlag(flags, FLAG_COMPRESS) {
        if |rest| < 1 {
          return Error, rest;
        }
        blocks := blocks[cur := b.(pages := b.pages[page := Fill(rest[0])])];
        rest := rest[1..];
      } else {
        if |rest| < PAGE {
          return Error, rest;
        }
        blocks := blocks[cur := b.(pages := b.pages[page := rest[..PAGE]])];
        rest := rest[PAGE..];
      }
      return Ok, rest;
    }

    /** One iteration of ram_load. */
    method LoadRecord(s: seq<Byte>) returns (status: Status, rest: seq<Byte>, eos: bool)
      requires ValidLoader(State())
      modifies this
      ensures ValidLoader(State())
      ensures match RamStream.LoadRecord(old(State()), s)
              case BadRecord => status == Error
              case WildRecord => status == Wild
              case Parsed(l, r, e) => status == Ok && State() == l && rest == r && eos == e
    {
      rest, eos := s, false;
      if |s| < 8 {
        return Error, rest, eos;
      }
      var v := FromBigEndian(s[..8]) % 0x1_0000_0000;
      var flags, page := v % 4096, v / 4096;
      rest, eos := s[8..], HasFlag(flags, FLAG_EOS);
      status := Ok;
      if HasFlag(flags, FLAG_MEM_SIZE) {
        var ok;
        ok, rest := CheckBlocks(Bytes(page), rest);
        if !ok {
          return Error, rest, eos;
        }
      }
      if HasFlag(flags, FLAG_COMPRESS) || HasFlag(flags, FLAG_PAGE) {
        status, rest := LoadPage(page, flags, rest);
      }
    }

    /** ram_load: records up to the end of the section. */
    method Load(s: seq<Byte>) returns (status: Status, rest: seq<Byte>)
      requires ValidLoader(State())
      modifies this
      ensures match LoadSection(old(State()), s)
              case Failed => status == Error
              case Undefined => status == Wild
              case Loaded(l, r) => status == Ok && State() == l && rest == r
    {
      rest := s;
      var eos := false;
      while true
        invariant ValidLoader(State())
        invariant LoadSection(old(State()), s) == LoadSection(State(), rest)
        decreases |rest|
      {
        status, rest, eos := LoadRecord(rest);
        if status != Ok || eos {
          return;
        }
      }
    }
  }
}
