/** The receiving side in place: block_load over the destination's drives, proved against the
    functions of BlockStream for every byte sequence. */
module BlockReceiver {
  import opened Common
  import opened Words
  import R = RamStream
  import opened BlockStream

  class Receiver {
    var devices: Devices

    constructor (devices: Devices)
      ensures this.devices == devices
    {
      this.devices := devices;
    }

    /** The DEVICE_BLOCK branch of block_load. */
    method WriteBlock(addr: int, s: seq<Byte>) returns (ok: bool, rest: seq<Byte>)
      modifies this
      ensures match LoadChunk(old(devices), addr, 0, s)
              case BadRecord => !ok
              case Parsed(m, r, _) => ok && devices == m && rest == r
    {
      ok, rest := false, s;
      var parsed := R.ReadName(s);
      if parsed.None? {
        return;
      }
      var name, tail := parsed.value.0, parsed.value.1;
      if name !in devices {
        return;
      }
      var disk := devices[name];
      var total := |disk| / 512;
      if total <= 0 {
        return;
      }
      var nr := if total - addr < 2048 then total - addr else 2048;
      if |tail| < 1048576 {
        return;
      }
      var buf := tail[..1048576];
      if addr < 0 || addr > total {
        return;
      }
      devices := devices[name := Spliced(disk, Sectors(addr), buf[..Sectors(nr)])];
      return true, tail[1048576..];
    }

    /** One iteration of block_load. */
    method LoadOne(s: seq<Byte>) returns (ok: bool, rest: seq<Byte>, eos: bool)
      modifies this
      ensures match LoadRecord(old(devices), s)
              case BadRecord => !ok
              case Parsed(m, r, e) => ok && devices == m && rest == r && eos == e
    {
      hide LoadChunk, FromBigEndian;
      ok, rest, eos := false, s, false;
      if |s| < 8 {
        return;
      }
      var v := FromBigEndian(s[..8]);
      WordBound(s[..8]);
      var flags, addr := v % 512, Address(v);
      eos := HasFlag(flags, FLAG_EOS);
      rest := s[8..];
      if HasFlag(flags, FLAG_DEVICE_BLOCK) {
        EosOfChunk(devices, addr, flags, rest);
        ok, rest := WriteBlock(addr, rest);
      } else {
        ok := HasFlag(flags, FLAG_PROGRESS) || HasFlag(flags, FLAG_EOS);
      }
    }

    /** block_load: records up to the end of the section. */
    method Load(s: seq<Byte>) returns (ok: bool, rest: seq<Byte>)
      modifies this
      ensures match LoadSection(old(devices), s)
              case Failed => !ok
              case Loaded(m, r) => ok && devices == m && rest == r
    {
      hide LoadRecord;
      rest := s;
      while true
        invariant LoadSection(old(devices), s) == LoadSection(devices, rest)
        decreases |rest|
      {
        var eos;
        ok, rest, eos := LoadOne(rest);
        if !ok || eos {
          return;
        }
      }
    }
  }

  lemma EosOfChunk(m: Devices, addr: int, flags: nat, s: seq<Byte>)
    ensures match LoadChunk(m, addr, 0, s)
            case BadRecord => LoadChunk(m, addr, flags, s).BadRecord?
            case Parsed(m', r, _) => LoadChunk(m, addr, flags, s) == Parsed(m', r, HasFlag(flags, FLAG_EOS))
  {
    hide HasFlag;
  }
}
