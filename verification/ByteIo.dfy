/** bdrv_pread and bdrv_pwrite: byte access built from whole-sector requests, with a first sector
    that may be partial, sectors in the middle, and a last sector that may be partial. */
module ByteIo {
  import opened Common
  import opened Words

  const EIO: int := 5

  lemma SplicedTwice(disk: seq<Byte>, at: nat, a: seq<Byte>, b: seq<Byte>)
    requires at + |a| + |b| <= |disk|
    ensures Spliced(Spliced(disk, at, a), at + |a|, b) == Spliced(disk, at, a + b)
  {}

  lemma SplicedNothing(disk: seq<Byte>, at: nat)
    requires at <= |disk|
    ensures Spliced(disk, at, []) == disk
  {}

  /** Reading a sector, replacing some of its bytes and writing it back replaces just those bytes. */
  lemma SplicedSector(disk: seq<Byte>, sector: nat, from: nat, data: seq<Byte>)
    requires 512 * sector + 512 <= |disk| && from + |data| <= 512
    ensures
      var old' := disk[512 * sector..512 * sector + 512];
      Spliced(disk, 512 * sector, Spliced(old', from, data)) == Spliced(disk, 512 * sector + from, data)
  {}

  /** bdrv_check_request for a device that cannot grow. */
  predicate InDevice(size: nat, sector: int, n: nat) {
    0 <= sector && 512 * sector <= size && size - 512 * sector >= 512 * n
  }

  predicate Within(size: nat, offset: int, count: nat) {
    0 <= offset && offset + count <= size
  }

  predicate IsSlice(disk: seq<Byte>, offset: int, count: nat, buf: seq<Byte>) {
    Within(|disk|, offset, count) && buf == disk[offset..offset + count]
  }

  /** The first k bytes of the data have been written at the offset, and nothing else. */
  predicate IsPatched(disk: seq<Byte>, disk': seq<Byte>, offset: int, data: seq<Byte>, k: nat) {
    && k <= |data|
    && if k == 0 then disk' == disk else Within(|disk|, offset, k) && disk' == Spliced(disk, offset, data[..k])
  }

  /** Only bytes of the range may differ. */
  predicate OnlyIn(disk: seq<Byte>, disk': seq<Byte>, at: int, n: nat) {
    |disk'| == |disk| && forall p :: 0 <= p < |disk| && !(at <= p < at + n) ==> disk'[p] == disk[p]
  }

  /** The first sector boundary not below p. */
  function RoundUp(p: int): int {
    (p + 511) / 512 * 512
  }

  /** A write that failed after k bytes: those have been written, and beyond them only the sectors of the
      slice may have changed; the first sector is intact around the slice if any byte was written. */
  predicate Torn(disk: seq<Byte>, disk': seq<Byte>, offset: int, data: seq<Byte>, k: nat) {
    && |disk'| == |disk| && k <= |data| && (k > 0 ==> Within(|disk|, offset, k))
    && (forall p :: offset <= p < offset + k && 0 <= p < |disk'| ==> disk'[p] == data[p - offset])
    && (forall p :: 0 <= p < |disk| && !(512 * (offset / 512) <= p < RoundUp(offset + |data|)) ==> disk'[p] == disk[p])
    && (k > 0 ==> forall p :: 0 <= p < offset && p < |disk| ==> disk'[p] == disk[p])
  }

  /** What the driver makes of a request: it is done, or it fails, and a failing write may leave these
      bytes in the sectors of the request. */
  datatype Answer = Done | Fails(left: seq<Byte>)

  /** The bytes before the first sector boundary, at most count of them. */
  function HeadLength(offset: int, count: nat): (len: nat)
    ensures len <= count
  {
    var len := (512 - offset) % 512;
    if len > count then count else len
  }

  lemma HeadEnds(offset: int, count: nat)
    ensures var len := HeadLength(offset, count);
      && offset % 512 + len <= 512
      && (len < count ==> 512 * (if len > 0 then offset / 512 + 1 else offset / 512) == offset + len)
  {}

  lemma SlicesJoin(disk: seq<Byte>, offset: int, a: nat, b: nat, x: seq<Byte>, y: seq<Byte>)
    requires if a == 0 then x == [] else IsSlice(disk, offset, a, x)
    requires IsSlice(disk, offset + a, b, y) && b > 0
    ensures IsSlice(disk, offset, a + b, x + y)
  {}

  lemma WithinParts(size: nat, offset: int, a: nat, b: nat)
    requires Within(size, offset, a + b)
    ensures Within(size, offset, a) && Within(size, offset + a, b)
  {}

  lemma TailSlice(disk: seq<Byte>, sector: int, n: nat, tmp: seq<Byte>)
    requires IsSlice(disk, 512 * sector, 512, tmp) && n <= 512
    ensures IsSlice(disk, 512 * sector, n, tmp[..n])
  {}

  /** Part of a sector read. */
  lemma HeadSlice(disk: seq<Byte>, offset: int, len: nat, tmp: seq<Byte>)
    requires offset % 512 + len <= 512 && InDevice(|disk|, offset / 512, 1) && tmp == disk[512 * (offset / 512)..512 * (offset / 512) + 512]
    ensures IsSlice(disk, offset, len, tmp[offset % 512..offset % 512 + len])
  {
    SliceOfSlice(disk, 512 * (offset / 512), 512, offset % 512, len);
  }

  lemma SliceOfSlice(disk: seq<Byte>, at: nat, n: nat, from: nat, len: nat)
    requires at + n <= |disk| && from + len <= n
    ensures disk[at..at + n][from..from + len] == disk[at + from..at + from + len]
  {
    var whole := disk[at..at + n];
    var a, b := whole[from..from + len], disk[at + from..at + from + len];
    forall k | 0 <= k < len ensures a[k] == b[k] {
      assert a[k] == whole[from + k] == disk[at + (from + k)];
    }
  }

  lemma WholeSlice(disk: seq<Byte>, sector: int, n: nat)
    requires InDevice(|disk|, sector, n)
    ensures 0 <= sector && 512 * sector + 512 * n <= |disk|
    ensures IsSlice(disk, 512 * sector, 512 * n, disk[512 * sector..512 * sector + 512 * n])
  {}

  lemma RestHolds(size: nat, sector: int, n: nat, left: nat)
    requires size % 512 == 0 && left < 512 && Within(size, 512 * sector, 512 * n + left)
    ensures InDevice(size, sector, n) && (left > 0 ==> InDevice(size, sector + n, 1))
  {}

  /** A slice inside a disk of whole sectors lies in the sectors read for it. */
  lemma SectorsHold(size: nat, offset: int, len: nat)
    requires size % 512 == 0 && 0 < len && offset % 512 + len <= 512 && Within(size, offset, len)
    ensures InDevice(size, offset / 512, 1)
  {}

  class Device {
    var disk: seq<Byte>
    var answers: seq<Answer>

    /** The driver's next answer; when the list is used up it succeeds. */
    method NextAnswer() returns (answer: Answer)
      modifies this`answers
      ensures old(NeverFails()) ==> NeverFails() && answer.Done?
      ensures old(FailsCleanly()) ==> FailsCleanly() && (answer.Done? || answer.left == [])
    {
      if answers == [] {
        return Done;
      }
      answer := answers[0];
      answers := answers[1..];
    }

    ghost predicate NeverFails()
      reads this
    {
      forall i :: 0 <= i < |answers| ==> answers[i].Done?
    }

    /** A failing write leaves the disk alone. */
    ghost predicate FailsCleanly()
      reads this
    {
      forall i :: 0 <= i < |answers| ==> answers[i].Done? || answers[i].left == []
    }

    /** bdrv_read */
    method Read(sector: int, n: nat) returns (ret: int, buf: seq<Byte>)
      modifies this`answers
      ensures ret >= 0 ==> InDevice(|disk|, sector, n) && buf == disk[512 * sector..512 * sector + 512 * n]
      ensures old(NeverFails()) ==> NeverFails() && (ret >= 0 <==> InDevice(|disk|, sector, n))
      ensures old(FailsCleanly()) ==> FailsCleanly()
    {
      buf := [];
      if !InDevice(|disk|, sector, n) {
        return -EIO, buf;
      }
      var answer := NextAnswer();
      if answer.Fails? {
        return -EIO, buf;
      }
      return 0, disk[512 * sector..512 * sector + 512 * n];
    }

    /** bdrv_write: a failing write may have changed the sectors of the request. */
    method Write(sector: int, data: seq<Byte>) returns (ret: int)
      requires |data| % 512 == 0
      modifies this`answers, this`disk
      ensures ret >= 0 ==> InDevice(|old(disk)|, sector, |data| / 512) && disk == Spliced(old(disk), 512 * sector, data)
      ensures ret < 0 ==> OnlyIn(old(disk), disk, 512 * sector, |data|) && (old(FailsCleanly()) ==> disk == old(disk))
      ensures old(NeverFails()) ==> NeverFails() && (ret >= 0 <==> InDevice(|old(disk)|, sector, |data| / 512))
      ensures old(FailsCleanly()) ==> FailsCleanly()
    {
      if !InDevice(|disk|, sector, |data| / 512) {
        return -EIO;
      }
      var answer := NextAnswer();
      if answer.Fails? {
        if |answer.left| == |data| {
          SplicedNothing(disk, 512 * sector);
          disk := Spliced(disk, 512 * sector, answer.left);
        }
        return -EIO;
      }
      disk := Spliced(disk, 512 * sector, data);
      return 0;
    }

    /** The first, partial sector of bdrv_pread. */
    method ReadHead(offset: int, len: nat) returns (ret: int, buf: seq<Byte>)
      requires |disk| % 512 == 0 && offset % 512 + len <= 512
      modifies this`answers
      ensures ret >= 0 && len > 0 ==> IsSlice(disk, offset, len, buf)
      ensures ret >= 0 && len == 0 ==> buf == []
      ensures old(NeverFails()) ==> NeverFails() && (len == 0 || Within(|disk|, offset, len) ==> ret >= 0)
    {
      hide IsSlice, Within, InDevice, NeverFails, FailsCleanly;
      ret, buf := 0, [];
      if len > 0 {
        if Within(|disk|, offset, len) {
          SectorsHold(|disk|, offset, len);
        }
        var tmp;
        ret, tmp := Read(offset / 512, 1);
        if ret < 0 {
          return;
        }
        HeadSlice(disk, offset, len, tmp);
        buf := tmp[offset % 512..offset % 512 + len];
      }
    }

    /** The sectors read in place and the last, partial one. */
    method ReadRest(sector: int, count: nat) returns (ret: int, buf: seq<Byte>)
      requires |disk| % 512 == 0
      modifies this`answers
      ensures ret >= 0 && count > 0 ==> IsSlice(disk, 512 * sector, count, buf)
      ensures ret >= 0 && count == 0 ==> buf == []
      ensures old(NeverFails()) && (count == 0 || Within(|disk|, 512 * sector, count)) ==> ret >= 0
    {
      hide IsSlice, Within, InDevice, NeverFails, FailsCleanly;
      var n := count / 512;
      var left := count - 512 * n;
      if Within(|disk|, 512 * sector, count) {
        RestHolds(|disk|, sector, n, left);
      }
      ret, buf := 0, [];
      if n > 0 {
        ret, buf := Read(sector, n);
        if ret < 0 {
          return;
        }
        WholeSlice(disk, sector, n);
      }
      if left > 0 {
        var tmp;
        ret, tmp := Read(sector + n, 1);
        if ret < 0 {
          return;
        }
        WholeSlice(disk, sector + n, 1);
        TailSlice(disk, sector + n, left, tmp);
        SlicesJoin(disk, 512 * sector, 512 * n, left, buf, tmp[..left]);
        buf := buf + tmp[..left];
      }
    }

    /** bdrv_pread: on success exactly the bytes asked for; it succeeds whenever they lie in the
        device and the driver does not fail. */
    method Pread(offset: int, count: nat) returns (ret: int, buf: seq<Byte>)
      requires |disk| % 512 == 0
      modifies this`answers
      ensures ret >= 0 ==> ret == count && if count == 0 then buf == [] else IsSlice(disk, offset, count, buf)
      ensures old(NeverFails()) && (count == 0 || Within(|disk|, offset, count)) ==> ret >= 0
    {
      hide IsSlice, Within, HeadLength;
      var len, sector := HeadLength(offset, count), offset / 512;
      HeadEnds(offset, count);
      if Within(|disk|, offset, count) {
        WithinParts(|disk|, offset, len, count - len);
      }
      ret, buf := ReadHead(offset, len);
      if ret < 0 {
        return;
      }
      if len > 0 {
        if len == count {
          return count, buf;
        }
        sector := sector + 1;
      }
      var rest;
      ret, rest := ReadRest(sector, count - len);
      if ret < 0 {
        return;
      }
      if count - len > 0 {
        SlicesJoin(disk, offset, len, count - len, buf, rest);
      }
      buf := buf + rest;
      return count, buf;
    }

    /** Read, replace and write back part of one sector. */
    method WriteWithin(sector: int, from: nat, data: seq<Byte>) returns (ret: int)
      requires from + |data| <= 512
      modifies this`answers, this`disk
      ensures ret >= 0 ==> InDevice(|old(disk)|, sector, 1) && disk == Spliced(old(disk), 512 * sector + from, data)
      ensures ret < 0 ==> OnlyIn(old(disk), disk, 512 * sector, 512) && (old(FailsCleanly()) ==> disk == old(disk))
      ensures old(NeverFails()) ==> NeverFails() && (ret >= 0 <==> InDevice(|old(disk)|, sector, 1))
      ensures old(FailsCleanly()) ==> FailsCleanly()
    {
      hide FailsCleanly, NeverFails;
      var tmp;
      ret, tmp := Read(sector, 1);
      if ret < 0 {
        return;
      }
      SplicedSector(disk, sector, from, data);
      tmp := Spliced(tmp, from, data);
      ret := Write(sector, tmp);
    }

    /** The sectors written in place and the last, partial one. */
    method WriteRest(sector: int, data: seq<Byte>) returns (ret: int, ghost written: nat)
      requires |disk| % 512 == 0
      modifies this`answers, this`disk
      ensures ret >= 0 ==> written == |data| && IsPatched(old(disk), disk, 512 * sector, data, written)
      ensures ret < 0 ==> Torn(old(disk), disk, 512 * sector, data, written)
      ensures old(FailsCleanly()) ==> IsPatched(old(disk), disk, 512 * sector, data, written)
      ensures old(NeverFails()) && (data == [] || Within(|old(disk)|, 512 * sector, |data|)) ==> ret >= 0
    {
      hide FailsCleanly, NeverFails, Spliced, Torn, OnlyIn;
      var n := |data| / 512;
      ret, written := 0, 0;
      if n > 0 {
        ret := Write(sector, data[..512 * n]);
        if ret < 0 {
          TornFrom(disk, old(disk), old(disk), 512 * sector, data, 0, 512 * n);
          return;
        }
        written := 512 * n;
      }
      var left := |data| - 512 * n;
      if left > 0 {
        ghost var before := disk;
        ret := WriteWithin(sector + n, 0, data[512 * n..]);
        if ret < 0 {
          TornFrom(disk, before, old(disk), 512 * sector, data, written, 512);
          return;
        }
        Extend(old(disk), before, 512 * sector, data, written, |data|);
        assert data[512 * n..|data|] == data[512 * n..];
        written := |data|;
      }
    }

    /** The first, partial sector of bdrv_pwrite. */
    method WriteHead(offset: int, data: seq<Byte>) returns (ret: int, ghost written: nat)
      requires |disk| % 512 == 0 && offset % 512 + |data| <= 512
      modifies this`answers, this`disk
      ensures ret >= 0 ==> written == |data| && IsPatched(old(disk), disk, offset, data, written)
      ensures ret < 0 ==> written == 0 && |data| > 0 && OnlyIn(old(disk), disk, 512 * (offset / 512), 512)
      ensures old(FailsCleanly()) ==> FailsCleanly() && IsPatched(old(disk), disk, offset, data, written)
      ensures old(NeverFails()) ==> NeverFails() && (data == [] || Within(|old(disk)|, offset, |data|) ==> ret >= 0)
    {
      hide FailsCleanly, NeverFails;
      ret, written := 0, 0;
      if |data| > 0 {
        ret := WriteWithin(offset / 512, offset % 512, data);
        if ret < 0 {
          return;
        }
        written := |data|;
        assert data[..written] == data;
      }
    }

    /** bdrv_pwrite: on success exactly the slice is replaced.  On failure some prefix of the data has
        been written, and beyond it only sectors of the slice may have changed; not even those, if
        failing requests leave the disk alone. */
    method Pwrite(offset: int, data: seq<Byte>) returns (ret: int, ghost written: nat)
      requires |disk| % 512 == 0
      modifies this`answers, this`disk
      ensures ret >= 0 ==> ret == |data| == written && IsPatched(old(disk), disk, offset, data, written)
      ensures ret < 0 ==> Torn(old(disk), disk, offset, data, written)
      ensures old(FailsCleanly()) ==> IsPatched(old(disk), disk, offset, data, written)
      ensures old(NeverFails()) && (data == [] || Within(|old(disk)|, offset, |data|)) ==> ret >= 0
    {
      hide Within, HeadLength, Spliced, IsPatched, FailsCleanly, NeverFails, Torn, OnlyIn;
      var len, sector := HeadLength(offset, |data|), offset / 512;
      HeadEnds(offset, |data|);
      if Within(|disk|, offset, |data|) {
        WithinParts(|disk|, offset, len, |data| - len);
      }
      ret, written := WriteHead(offset, data[..len]);
      if ret < 0 {
        TornHead(old(disk), disk, offset, data);
        if old(FailsCleanly()) {
          PrefixPatched(old(disk), disk, offset, data, len, written);
        }
        return;
      }
      PrefixPatched(old(disk), disk, offset, data, len, written);
      if len > 0 {
        if len == |data| {
          return |data|, written;
        }
        sector := sector + 1;
      }
      ghost var before := disk;
      ghost var rest: nat;
      ret, rest := WriteRest(sector, data[len..]);
      written := len + rest;
      if ret >= 0 || old(FailsCleanly()) {
        if len == |data| {
          NothingPatched(before, disk, 512 * sector, offset + len, data[len..], rest);
        }
        Continue(old(disk), before, disk, offset, data, len, rest);
      }
      if ret >= 0 {
        ret := |data|;
      } else {
        TornAfter(old(disk), before, disk, offset, data, len, rest, 512 * sector);
      }
    }

    /** What was written is read back. */
    method WriteThenRead(offset: int, data: seq<Byte>) returns (wrote: int, got: int, buf: seq<Byte>)
      requires |disk| % 512 == 0
      modifies this
      ensures wrote >= 0 && got >= 0 ==> buf == data
    {
      ghost var written;
      wrote, written := Pwrite(offset, data);
      got, buf := Pread(offset, |data|);
      if wrote >= 0 && got >= 0 && data != [] {
        assert data[..written] == data;
      }
    }
  }

  /** Writing the next part of the data after a prefix of it. */
  lemma Extend(disk: seq<Byte>, before: seq<Byte>, offset: int, data: seq<Byte>, k: nat, m: nat)
    requires 0 <= offset && k <= m <= |data| && offset + m <= |disk|
    requires before == if k == 0 then disk else Spliced(disk, offset, data[..k])
    ensures Spliced(before, offset + k, data[k..m]) == Spliced(disk, offset, data[..m])
  {
    assert data[..m] == data[..k] + data[k..m];
    SplicedNothing(disk, offset);
    SplicedTwice(disk, offset, data[..k], data[k..m]);
  }

  /** A request from a sector boundary on, after k bytes, failed. */
  lemma TornFrom(after: seq<Byte>, before: seq<Byte>, disk: seq<Byte>, offset: int, data: seq<Byte>, k: nat, n: nat)
    requires offset % 512 == 0 && k % 512 == 0 && k <= |data| && offset + k + n <= RoundUp(offset + |data|)
    requires IsPatched(disk, before, offset, data, k) && OnlyIn(before, after, offset + k, n)
    ensures Torn(disk, after, offset, data, k)
  {}

  lemma TornHead(disk: seq<Byte>, after: seq<Byte>, offset: int, data: seq<Byte>)
    requires data != [] && OnlyIn(disk, after, 512 * (offset / 512), 512)
    ensures Torn(disk, after, offset, data, 0)
  {}

  /** The head was written, and the rest failed. */
  lemma TornAfter(disk: seq<Byte>, before: seq<Byte>, after: seq<Byte>, offset: int, data: seq<Byte>, k: nat, m: nat, at: int)
    requires k <= |data| && IsPatched(disk, before, offset, data, k) && Torn(before, after, at, data[k..], m)
    requires at % 512 == 0 && (k < |data| ==> at == offset + k)
    ensures Torn(disk, after, offset, data, k + m)
  {
    hide Spliced;
    if k == |data| {
      TornNothing(before, after, at, data[k..], m);
    } else {
      assert RoundUp(at + |data[k..]|) == RoundUp(offset + |data|);
      forall p | offset <= p < offset + k + m && 0 <= p < |after| ensures after[p] == data[p - offset] {
        assert p >= at ==> data[k..][p - at] == data[p - offset];
      }
    }
  }

  lemma TornNothing(disk: seq<Byte>, after: seq<Byte>, at: int, data: seq<Byte>, m: nat)
    requires at % 512 == 0 && data == [] && Torn(disk, after, at, data, m)
    ensures m == 0 && after == disk
  {}

  /** The same prefix of a longer string. */
  lemma PrefixPatched(disk: seq<Byte>, disk': seq<Byte>, offset: int, data: seq<Byte>, len: nat, k: nat)
    requires len <= |data| && IsPatched(disk, disk', offset, data[..len], k)
    ensures IsPatched(disk, disk', offset, data, k) && |disk'| == |disk|
  {
    assert k <= len ==> data[..len][..k] == data[..k];
  }

  lemma NothingPatched(disk: seq<Byte>, disk': seq<Byte>, at: int, offset: int, data: seq<Byte>, k: nat)
    requires IsPatched(disk, disk', at, data, k) && data == []
    ensures IsPatched(disk, disk', offset, data, k)
  {}

  lemma Continue(disk: seq<Byte>, before: seq<Byte>, after: seq<Byte>, offset: int, data: seq<Byte>, k: nat, m: nat)
    requires IsPatched(disk, before, offset, data, k) && IsPatched(before, after, offset + k, data[k..], m)
    ensures IsPatched(disk, after, offset, data, k + m)
  {
    if m > 0 {
      assert data[k..][..m] == data[k..k + m];
      Extend(disk, before, offset, data, k, k + m);
    }
  }
}
