/** bdrv_commit: the allocated sectors of a copy-on-write overlay are copied into its backing file,
    and the overlay is emptied.  The sector type is a parameter; `zero` is a sector of zeros. */
module Commit {
  import opened Common

  /** A sector read from the backing file, which may be shorter than the overlay. */
  function BackingAt<T>(zero: T, backing: seq<T>, s: nat): T {
    if s < |backing| then backing[s] else zero
  }

  /** What the guest reads. */
  function View<T>(zero: T, overlay: seq<Option<T>>, backing: seq<T>): (v: seq<T>)
    ensures |v| == |overlay|
  {
    seq(|overlay|, s requires 0 <= s < |overlay| => if overlay[s].Some? then overlay[s].value else BackingAt(zero, backing, s))
  }

  /** The backing file alone shows what the guest reads. */
  ghost predicate BackingShows<T>(zero: T, overlay: seq<Option<T>>, backing: seq<T>, upTo: nat) {
    forall s :: 0 <= s < upTo && s < |overlay| ==> BackingAt(zero, backing, s) == View(zero, overlay, backing)[s]
  }

  predicate Allocated<T>(overlay: seq<Option<T>>, s: nat, n: nat)
    requires s + n <= |overlay|
  {
    forall k :: s <= k < s + n ==> overlay[k].Some?
  }

  /** Whatever is written under allocated sectors, the guest reads the same. */
  lemma WriteUnderAllocated<T>(zero: T, overlay: seq<Option<T>>, backing: seq<T>, s: nat, data: seq<T>)
    requires s + |data| <= |overlay| && s + |data| <= |backing| && Allocated(overlay, s, |data|)
    ensures View(zero, overlay, Spliced(backing, s, data)) == View(zero, overlay, backing)
  {
    var v, v' := View(zero, overlay, backing), View(zero, overlay, Spliced(backing, s, data));
    forall k | 0 <= k < |overlay| ensures v'[k] == v[k] {
      if overlay[k].None? {
        assert k < s || s + |data| <= k;
      }
    }
  }

  /** Copying the view of allocated sectors down extends what the backing file shows. */
  lemma CopyShows<T>(zero: T, overlay: seq<Option<T>>, backing: seq<T>, s: nat, n: nat)
    requires s + n <= |overlay| && s + n <= |backing| && Allocated(overlay, s, n) && BackingShows(zero, overlay, backing, s)
    ensures BackingShows(zero, overlay, Spliced(backing, s, View(zero, overlay, backing)[s..s + n]), s + n)
  {
    var v := View(zero, overlay, backing);
    var backing' := Spliced(backing, s, v[s..s + n]);
    WriteUnderAllocated(zero, overlay, backing, s, v[s..s + n]);
    forall k | 0 <= k < s + n ensures BackingAt(zero, backing', k) == v[k] {
      if k < s {
        assert BackingAt(zero, backing, k) == v[k];
      }
    }
  }

  lemma SkipShows<T>(zero: T, overlay: seq<Option<T>>, backing: seq<T>, s: nat, n: nat)
    requires s + n <= |overlay| && BackingShows(zero, overlay, backing, s)
    requires forall k :: s <= k < s + n ==> overlay[k].None?
    ensures BackingShows(zero, overlay, backing, s + n)
  {
    forall k | 0 <= k < s + n ensures BackingAt(zero, backing, k) == View(zero, overlay, backing)[k] {
      if k < s {
        assert BackingAt(zero, backing, k) == View(zero, overlay, backing)[k];
      }
    }
  }

  /** The overlay with only the sectors marked in `keep`. */
  function Emptied<T>(overlay: seq<Option<T>>, keep: seq<bool>): (r: seq<Option<T>>)
    ensures |r| == |overlay|
  {
    seq(|overlay|, s requires 0 <= s < |overlay| => if s < |keep| && keep[s] then overlay[s] else None)
  }

  /** Once the backing file shows everything, dropping any sectors of the overlay changes nothing. */
  lemma EmptyKeepsView<T>(zero: T, overlay: seq<Option<T>>, backing: seq<T>, keep: seq<bool>)
    requires BackingShows(zero, overlay, backing, |overlay|)
    ensures View(zero, Emptied(overlay, keep), backing) == View(zero, overlay, backing)
    ensures BackingShows(zero, Emptied(overlay, keep), backing, |overlay|)
  {
    var v := View(zero, overlay, backing);
    forall s | 0 <= s < |overlay| ensures View(zero, Emptied(overlay, keep), backing)[s] == v[s] {
      assert BackingAt(zero, backing, s) == v[s];
    }
  }

  /** Every allocated sector has a place in the backing file. */
  ghost predicate HasRoom<T>(overlay: seq<Option<T>>, size: nat) {
    forall s :: 0 <= s < |overlay| && overlay[s].Some? ==> s < size
  }

  lemma RunHasRoom<T>(overlay: seq<Option<T>>, size: nat, s: nat, n: nat)
    requires HasRoom(overlay, size) && n > 0 && s + n <= |overlay| && Allocated(overlay, s, n)
    ensures s + n <= size
  {
    assert overlay[s + n - 1].Some?;
  }

  ghost predicate AllWork<T>(answers: seq<Answer<T>>) {
    forall i :: 0 <= i < |answers| ==> answers[i].Works?
  }

  /** What the drivers do with one allocated run.  A write that fails may have changed the sectors it
      was for in any way. */
  datatype Answer<T> = Works | ReadFails | WriteFails(garbage: seq<T>)

  /** bdrv_make_empty: missing, or it drops all sectors but those kept, with a return code. */
  datatype MakeEmpty = Missing | Present(keep: seq<bool>, ret: int)

  class Image<T> {
    const zero: T
    var overlay: seq<Option<T>>
    var backing: seq<T>
    ghost var views: seq<seq<T>>

    constructor (zero: T, overlay: seq<Option<T>>, backing: seq<T>)
      ensures this.zero == zero && this.overlay == overlay && this.backing == backing && views == []
    {
      this.zero, this.overlay, this.backing, views := zero, overlay, backing, [];
    }

    ghost function Guest(): seq<T>
      reads this
    {
      View(zero, overlay, backing)
    }

    /** Any sound answer of bdrv_is_allocated: a positive run of sectors in the same state. */
    method IsAllocated(s: nat, max: nat) returns (a: bool, n: nat)
      requires s < |overlay| && max > 0
      ensures 0 < n <= max && s + n <= |overlay| && a == overlay[s].Some?
      ensures forall k :: s <= k < s + n ==> overlay[k].Some? == a
    {
      a := overlay[s].Some?;
      assert forall k :: s <= k < s + 1 ==> overlay[k].Some? == a;
      n :| 0 < n <= max && s + n <= |overlay| && forall k :: s <= k < s + n ==> overlay[k].Some? == a;
    }

    /** Reads a run through the overlay and writes it to the backing file. */
    method CopyRun(s: nat, n: nat, answer: Answer<T>) returns (ok: bool)
      requires s + n <= |overlay| && Allocated(overlay, s, n)
      modifies this`backing
      ensures Guest() == old(Guest())
      ensures ok && old(BackingShows(zero, overlay, backing, s)) ==> BackingShows(zero, overlay, backing, s + n)
      ensures |backing| == |old(backing)| && (ok <==> answer.Works? && s + n <= |backing|)
    {
      if answer.ReadFails? || s + n > |backing| {
        return false;
      }
      if answer.WriteFails? {
        if |answer.garbage| == n {
          WriteUnderAllocated(zero, overlay, backing, s, answer.garbage);
          backing := Spliced(backing, s, answer.garbage);
        }
        return false;
      }
      var buf := View(zero, overlay, backing)[s..s + n];
      WriteUnderAllocated(zero, overlay, backing, s, buf);
      if BackingShows(zero, overlay, backing, s) {
        CopyShows(zero, overlay, backing, s, n);
      }
      backing := Spliced(backing, s, buf);
      return true;
    }

    /** The loop of bdrv_commit.  `views` records what the guest reads after every turn. */
    method CopyAll(answers: seq<Answer<T>>) returns (ok: bool)
      modifies this`backing, this`views
      ensures Guest() == old(Guest()) && forall i :: 0 <= i < |views| ==> views[i] == Guest()
      ensures ok ==> BackingShows(zero, overlay, backing, |overlay|)
      ensures HasRoom(overlay, |old(backing)|) && AllWork(answers) ==> ok
    {
      hide View, BackingAt;
      var s, turn := 0, 0;
      views := [];
      while s < |overlay|
        invariant s <= |overlay| && Guest() == old(Guest()) && BackingShows(zero, overlay, backing, s)
        invariant |backing| == |old(backing)| && forall i :: 0 <= i < |views| ==> views[i] == Guest()
      {
        var a, n := IsAllocated(s, 2048);
        if a {
          if HasRoom(overlay, |backing|) {
            RunHasRoom(overlay, |backing|, s, n);
          }
          ok := CopyRun(s, n, if turn < |answers| then answers[turn] else Works);
          views, turn := views + [Guest()], turn + 1;
          if !ok {
            return;
          }
        } else {
          SkipShows(zero, overlay, backing, s, n);
        }
        s := s + n;
      }
      return true;
    }

    /** bdrv_commit between opening and reopening the backing file: the guest's view is the same after
        every turn, after an abort and at the end; without an abort the backing file alone shows it. */
    method Commit(answers: seq<Answer<T>>, makeEmpty: MakeEmpty) returns (ret: int, ghost aborted: bool)
      modifies this
      ensures Guest() == old(Guest()) && forall i :: 0 <= i < |views| ==> views[i] == old(Guest())
      ensures aborted ==> ret < 0 && overlay == old(overlay)
      ensures old(HasRoom(overlay, |backing|)) && AllWork(answers) ==> !aborted
      ensures !aborted ==> BackingShows(zero, overlay, backing, |overlay|)
      ensures !aborted && makeEmpty.Present? && makeEmpty.keep == [] ==> forall s :: 0 <= s < |overlay| ==> overlay[s].None?
    {
      hide View, BackingAt;
      ret := 0;
      var ok := CopyAll(answers);
      aborted := !ok;
      if !ok {
        return -5, aborted;
      }
      if makeEmpty.Present? {
        EmptyKeepsView(zero, overlay, backing, makeEmpty.keep);
        overlay := Emptied(overlay, makeEmpty.keep);
        ret := makeEmpty.ret;
      }
    }
  }
}
