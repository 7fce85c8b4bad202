/** The buffered migration file: bytes go straight to the backend while it takes them and the rate
    limit allows, and wait in a growing buffer otherwise. */
module BufferedFile {
  import opened Words

  const EAGAIN: int := 11
  const EINVAL: int := 22

  lemma PrefixGrows(sent: seq<Byte>, s: seq<Byte>, k: nat, n: nat)
    requires k + n <= |s|
    ensures sent + s[..k] + s[k..][..n] == sent + s[..k + n]
  {
    assert s[..k + n] == s[..k] + s[k..][..n];
  }

  /** memcpy into a buffer. */
  method Store(a: array<Byte>, at: nat, data: seq<Byte>)
    requires at + |data| <= a.Length
    modifies a
    ensures a[..at + |data|] == old(a[..at]) + data
  {
    for i := 0 to |data|
      invariant a[..at + i] == old(a[..at]) + data[..i]
    {
      a[at + i] := data[i];
    }
    assert data[..|data|] == data;
  }

  /** memmove to the front of the buffer. */
  method MoveDown(a: array<Byte>, offset: nat, size: nat)
    requires offset <= size <= a.Length
    modifies a
    ensures a[..size - offset] == old(a[offset..size])
  {
    for i := 0 to size - offset
      invariant forall k :: 0 <= k < i ==> a[k] == old(a[offset + k])
      invariant forall k :: i <= k < a.Length ==> a[k] == old(a[k])
    {
      a[i] := a[offset + i];
    }
  }

  class QEMUFileBuffered {
    var buffer: array<Byte>
    var size: nat
    var hasError: bool
    var freezeOutput: bool
    var closed: bool
    var bytesXfer: nat
    var xferLimit: nat

    /** Whether the file was used after buffered_close had freed it. */
    var usedFreed: bool

    /** What the backend will return, call by call; when the list is used up it takes everything. */
    var answers: seq<int>

    /** Bytes the backend has accepted, and bytes put by the client. */
    ghost var accepted: seq<Byte>
    ghost var put: seq<Byte>

    ghost function Contents(): seq<Byte>
      requires size <= buffer.Length
      reads this, buffer
    {
      buffer[..size]
    }

    /** The size stays within the capacity, and until an error nothing is lost or reordered. */
    ghost predicate Valid()
      reads this, buffer
    {
      size <= buffer.Length && (!hasError ==> accepted + Contents() == put)
    }

    constructor (bytesPerSec: nat, answers: seq<int>)
      ensures Valid() && fresh(buffer) && put == [] && accepted == [] && size == 0 && !hasError && !freezeOutput && !closed && !usedFreed
      ensures bytesXfer == 0 && xferLimit == bytesPerSec / 10 && this.answers == answers
    {
      buffer := new Byte[0];
      size, hasError, freezeOutput, closed, bytesXfer, xferLimit := 0, false, false, false, 0, bytesPerSec / 10;
      this.answers, accepted, put, usedFreed := answers, [], [], false;
    }

    /** Every operation begins by reading the file's state. */
    method Enter()
      modifies this`usedFreed
      ensures usedFreed == (old(usedFreed) || old(closed))
    {
      if closed {
        usedFreed := true;
      }
    }

    /** The backend's put_buffer: an error, EAGAIN, or a nonempty prefix of what is offered. */
    method PutToBackend(data: seq<Byte>) returns (ret: int)
      requires data != []
      modifies this`answers, this`accepted
      ensures ret <= |data|
      ensures accepted == if ret > 0 then old(accepted) + data[..ret] else old(accepted)
      ensures if old(answers) == [] then answers == [] && ret == |data| else answers == old(answers)[1..]
    {
      if answers == [] {
        accepted := accepted + data;
        assert data[..|data|] == data;
        return |data|;
      }
      ret := if answers[0] > |data| then |data| else answers[0];
      answers := answers[1..];
      if ret > 0 {
        accepted := accepted + data[..ret];
      }
    }

    /** buffered_append */
    method Append(data: seq<Byte>)
      requires size <= buffer.Length
      modifies this`buffer, this`size, buffer
      ensures size <= buffer.Length && size == old(size) + |data| && Contents() == old(Contents()) + data
      ensures if |data| > old(buffer.Length) - old(size) then fresh(buffer) && buffer.Length == old(buffer.Length) + |data| + 1024
              else buffer == old(buffer)
    {
      if |data| > buffer.Length - size {
        var tmp := new Byte[buffer.Length + |data| + 1024](_ => 0);
        Store(tmp, 0, buffer[..size]);
        buffer := tmp;
      }
      Store(buffer, size, data);
      size := size + |data|;
    }

    /** The memmove at the end of buffered_flush. */
    method Drop(offset: nat)
      requires offset <= size <= buffer.Length
      modifies this`size, buffer
      ensures size <= buffer.Length && Contents() == old(Contents())[offset..]
    {
      MoveDown(buffer, offset, size);
      size := size - offset;
    }

    /** The loop of buffered_flush over the queued bytes. */
    method Offer(queued: seq<Byte>) returns (offset: nat)
      requires !hasError
      modifies this`hasError, this`freezeOutput, this`answers, this`accepted
      ensures offset <= |queued| && accepted == old(accepted) + queued[..offset]
      ensures offset == |queued| || hasError || freezeOutput
      ensures queued != [] ==> |answers| < |old(answers)| || (answers == [] && offset == |queued|)
      ensures |answers| <= |old(answers)| && (old(freezeOutput) ==> freezeOutput)
    {
      offset := 0;
      while offset < |queued|
        invariant offset <= |queued| && !hasError && accepted == old(accepted) + queued[..offset]
        invariant |answers| <= |old(answers)| && (offset > 0 ==> |answers| < |old(answers)| || (answers == [] && offset == |queued|))
        invariant freezeOutput == old(freezeOutput)
      {
        var ret := PutToBackend(queued[offset..]);
        if ret == -EAGAIN {
          freezeOutput := true;
          return;
        }
        if ret <= 0 {
          hasError := true;
          return;
        }
        PrefixGrows(old(accepted), queued, offset, ret);
        offset := offset + ret;
      }
    }

    /** buffered_flush: what it takes off the buffer is what the backend accepted, even on an error;
        it stops short of an empty buffer only by freezing or failing. */
    method Flush()
      requires Valid()
      modifies this`size, this`hasError, this`freezeOutput, this`answers, this`accepted, buffer
      ensures Valid() && accepted + Contents() == old(accepted + Contents())
      ensures old(hasError) ==> hasError && accepted == old(accepted) && answers == old(answers) && freezeOutput == old(freezeOutput)
      ensures size == 0 || hasError || freezeOutput
      ensures old(size) > 0 && !old(hasError) ==> |answers| < |old(answers)| || (answers == [] && size == 0)
      ensures |answers| <= |old(answers)| && (old(freezeOutput) ==> freezeOutput)
    {
      if hasError {
        return;
      }
      ghost var queued := Contents();
      var offset := Offer(buffer[..size]);
      assert queued == queued[..offset] + queued[offset..];
      Drop(offset);
    }

    /** The direct part of buffered_put_buffer: how many bytes the backend took, negative on error. */
    method PutDirectly(data: seq<Byte>) returns (offset: int)
      requires size <= buffer.Length
      modifies this`hasError, this`freezeOutput, this`bytesXfer, this`answers, this`accepted
      ensures offset <= |data| && (offset < 0 ==> hasError && offset == -EINVAL)
      ensures offset >= 0 ==> hasError == old(hasError) && accepted == old(accepted) + data[..offset]
      ensures offset >= 0 ==> bytesXfer == old(bytesXfer) + offset
      ensures (0 < offset ==> !old(freezeOutput)) && (old(freezeOutput) ==> freezeOutput)
      ensures 0 <= offset < |data| ==> freezeOutput || bytesXfer > xferLimit
    {
      offset := 0;
      while !freezeOutput && offset < |data|
        invariant 0 <= offset <= |data| && hasError == old(hasError) && accepted == old(accepted) + data[..offset]
        invariant freezeOutput == old(freezeOutput) && (0 < offset ==> !freezeOutput) && bytesXfer == old(bytesXfer) + offset
        decreases |data| - offset
      {
        if bytesXfer > xferLimit {
          return;
        }
        var ret := PutToBackend(data[offset..]);
        if ret == -EAGAIN {
          freezeOutput := true;
          return;
        }
        if ret <= 0 {
          hasError := true;
          return -EINVAL;
        }
        PrefixGrows(old(accepted), data, offset, ret);
        offset, bytesXfer := offset + ret, bytesXfer + ret;
      }
    }

    /** buffered_put_buffer.  `ready` tells that the client is notified. */
    method PutBuffer(data: seq<Byte>, pos: int) returns (ret: int, ready: bool)
      requires Valid()
      modifies this, buffer
      ensures Valid() && (buffer == old(buffer) || fresh(buffer))
      ensures old(hasError) ==> ret == -EINVAL && put == old(put) && accepted == old(accepted)
      ensures !hasError ==> ret == |data| && put == old(put) + data
      ensures !hasError && size > 0 ==> freezeOutput || bytesXfer > xferLimit
      ensures ready <==> !old(hasError) && pos == 0 && data == [] && bytesXfer <= xferLimit
      ensures closed == old(closed) && usedFreed == (old(usedFreed) || old(closed))
    {
      Enter();
      ready := false;
      if hasError {
        return -EINVAL, ready;
      }
      freezeOutput := false;
      Flush();
      put := put + data;
      ghost var queued, sent := Contents(), accepted;
      ret := PutDirectly(data);
      if ret >= 0 {
        Append(data[ret..]);
        if !hasError {
          Lossless(sent, queued, data, ret);
        }
        ret := |data|;
      }
      if pos == 0 && data == [] {
        ready := bytesXfer <= xferLimit;
      }
    }

    /** buffered_close; wait_for_unfreeze returns when the backend can be tried again. */
    method Close()
      requires Valid()
      modifies this`size, this`hasError, this`freezeOutput, this`answers, this`accepted, this`closed, this`usedFreed, buffer
      ensures Valid() && put == old(put) && closed && accepted + Contents() == old(accepted + Contents())
      ensures !hasError ==> size == 0 && accepted == put
      ensures old(hasError) ==> accepted == old(accepted) && Contents() == old(Contents()) && hasError
      ensures usedFreed == (old(usedFreed) || old(closed))
    {
      Enter();
      closed := true;
      while !hasError && size > 0
        invariant Valid() && closed && accepted + Contents() == old(accepted + Contents()) && usedFreed == (old(usedFreed) || old(closed))
        invariant old(hasError) ==> accepted == old(accepted) && Contents() == old(Contents()) && hasError
        decreases |answers|, size
      {
        Flush();
      }
      if !hasError {
        assert Contents() == [];
      }
    }

    /** buffered_rate_tick: after an error the file is closed, and otherwise the client is told that it can
        put again once the buffer was flushed as far as possible. */
    method RateTick() returns (ready: bool)
      requires Valid()
      modifies this, buffer
      ensures Valid() && buffer == old(buffer) && accepted + Contents() == old(accepted + Contents()) && put == old(put)
      ensures ready == (!old(hasError) && !old(freezeOutput)) && closed == (old(closed) || old(hasError))
      ensures ready ==> bytesXfer == 0 && (size == 0 || hasError || freezeOutput)
      ensures !ready ==> bytesXfer == old(bytesXfer) && accepted == old(accepted)
      ensures usedFreed == (old(usedFreed) || old(closed)) && (old(hasError) ==> hasError)
    {
      Enter();
      if hasError {
        Close();
        return false;
      }
      if freezeOutput {
        return false;
      }
      bytesXfer := 0;
      Flush();
      return true;
    }

    /** The client closes the file after a tick: it uses freed memory exactly when there had been an error
        at the tick, which then closed the file itself. */
    method TickThenClose()
      requires Valid() && !closed && !usedFreed
      modifies this, buffer
      ensures usedFreed <==> old(hasError)
    {
      var ready := RateTick();
      Close();
    }

    /** buffered_rate_limit */
    method RateLimited() returns (r: bool)
      modifies this`usedFreed
      ensures r <==> !hasError && (freezeOutput || bytesXfer > xferLimit)
      ensures usedFreed == (old(usedFreed) || closed)
    {
      Enter();
      if hasError {
        return false;
      }
      if freezeOutput {
        return true;
      }
      return bytesXfer > xferLimit;
    }
  }

  /** Bytes put directly come after an empty buffer, the rest after what is queued. */
  lemma Lossless(sent: seq<Byte>, queued: seq<Byte>, data: seq<Byte>, n: nat)
    requires n <= |data| && (n > 0 ==> queued == [])
    ensures (sent + data[..n]) + (queued + data[n..]) == (sent + queued) + data
  {
    assert data == data[..n] + data[n..];
  }
}
