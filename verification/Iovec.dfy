/** Io vectors: qemu_iovec_concat takes at most the given prefix of what a vector holds. */
module Iovec {
  function Flatten<T>(iov: seq<seq<T>>): seq<T> {
    if iov == [] then [] else iov[0] + Flatten(iov[1..])
  }

  lemma {:induction false} FlattenConcat<T>(a: seq<seq<T>>, b: seq<seq<T>>)
    ensures Flatten(a + b) == Flatten(a) + Flatten(b)
    decreases |a|
  {
    if a == [] {
      assert a + b == b;
    } else {
      calc {
        Flatten(a + b);
        { assert (a + b)[1..] == a[1..] + b; }
        a[0] + Flatten(a[1..] + b);
        { FlattenConcat(a[1..], b); }
        a[0] + (Flatten(a[1..]) + Flatten(b));
        Flatten(a) + Flatten(b);
      }
    }
  }

  lemma FlattenAppend<T>(a: seq<seq<T>>, x: seq<T>)
    ensures Flatten(a + [x]) == Flatten(a) + x
  {
    FlattenConcat(a, [x]);
    assert [x][1..] == [] && x + [] == x;
  }

  function Prefix<T>(s: seq<T>, n: nat): (r: seq<T>) {
    if n <= |s| then s[..n] else s
  }

  /** The io vectors qemu_iovec_concat adds: at most `size` elements, empty vectors skipped. */
  function Take<T>(iov: seq<seq<T>>, size: nat): (r: seq<seq<T>>)
    ensures |r| <= |iov|
    decreases |iov|
  {
    if iov == [] || size == 0 then []
    else if |iov[0]| == 0 then Take(iov[1..], size)
    else if |iov[0]| > size then [iov[0][..size]]
    else [iov[0]] + Take(iov[1..], size - |iov[0]|)
  }

  lemma {:induction false} TakeIsPrefix<T>(iov: seq<seq<T>>, size: nat)
    ensures Flatten(Take(iov, size)) == Prefix(Flatten(iov), size)
    decreases |iov|
  {
    if iov != [] && size > 0 {
      var x, rest := iov[0], iov[1..];
      if |x| > size {
        assert Flatten([x[..size]]) == x[..size] by { assert [x[..size]][1..] == []; }
      } else {
        var n: nat := size - |x|;
        TakeIsPrefix(rest, n);
        if |x| > 0 {
          assert ([x] + Take(rest, n))[1..] == Take(rest, n);
          assert Flatten([x] + Take(rest, n)) == x + Flatten(Take(rest, n));
        } else {
          assert Flatten(iov) == Flatten(rest);
        }
      }
    }
  }

  /** qemu_iovec_concat, the loop of qemu_iovec_copy with nothing skipped. */
  method Concat<T>(dst: seq<seq<T>>, src: seq<seq<T>>, size: nat) returns (r: seq<seq<T>>)
    ensures r == dst + Take(src, size)
  {
    r := dst;
    var done := 0;
    var i := 0;
    while i < |src| && done != size
      invariant i <= |src| && done <= size && dst + Take(src, size) == r + Take(src[i..], size - done)
    {
      assert src[i..][1..] == src[i + 1..];
      if |src[i]| == 0 {
        i := i + 1;
      } else if done + |src[i]| > size {
        r := r + [src[i][..size - done]];
        return;
      } else {
        ghost var tail := Take(src[i + 1..], size - done - |src[i]|);
        assert r + ([src[i]] + tail) == r + [src[i]] + tail;
        r := r + [src[i]];
        done := done + |src[i]|;
        i := i + 1;
      }
    }
  }
}
