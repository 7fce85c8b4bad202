/** multiwrite_merge: sorted write requests are joined into runs.  A request that starts inside a run
    cuts the run where it starts, and what the run had beyond the request's end is lost; the condition
    for the joined requests to mean the same as the sorted ones is `Faithful`.

    The payload type is a parameter: bytes, or labels that say which request a byte came from. */
module Multiwrite {
  import opened Common
  import opened Iovec

  /** A write request: its first sector and its io vector. */
  datatype Request<T> = Request(sector: nat, iov: seq<seq<T>>)

  // ----- requests

  function Data<T>(r: Request<T>): seq<T> {
    Flatten(r.iov)
  }

  function Start<T>(r: Request<T>): nat {
    512 * r.sector
  }

  function End<T>(r: Request<T>): nat {
    Start(r) + |Data(r)|
  }

  predicate WholeSectors<T>(r: Request<T>) {
    |Data(r)| % 512 == 0
  }

  function Sectors<T>(r: Request<T>): nat {
    |Data(r)| / 512
  }

  predicate Covers<T>(r: Request<T>, p: nat) {
    Start(r) <= p < End(r)
  }

  function ByteAt<T>(r: Request<T>, p: nat): T
    requires Covers(r, p)
  {
    Data(r)[p - Start(r)]
  }

  /** What the requests, issued in order, leave at p; None where they do not write. */
  function At<T>(reqs: seq<Request<T>>, p: nat): Option<T>
    decreases |reqs|
  {
    if reqs == [] then None
    else
      var last := |reqs| - 1;
      if Covers(reqs[last], p) then Some(ByteAt(reqs[last], p)) else At(reqs[..last], p)
  }

  /** Some request writes p. */
  predicate Covered<T>(reqs: seq<Request<T>>, p: nat) {
    exists i :: 0 <= i < |reqs| && Covers(reqs[i], p)
  }

  // ----- merging

  /** The driver's bdrv_merge_requests, from the two requests' sectors and lengths. */
  type Driver = (nat, nat, nat, nat) -> bool

  predicate Mergeable<T>(run: Request<T>, req: Request<T>, driver: Driver) {
    && (Start(req) <= End(run) || driver(run.sector, Sectors(run), req.sector, Sectors(req)))
    && |run.iov| + |req.iov| + 1 <= 1024
  }

  function Zeros<T>(zero: T, n: nat): (r: seq<T>)
    ensures |r| == n
  {
    seq(n, _ => zero)
  }

  /** The run cut where the request starts, or extended by zeros up to there, then the request. */
  function Joined<T>(zero: T, run: Request<T>, req: Request<T>): Request<T>
    requires run.sector <= req.sector
  {
    var head := Take(run.iov, Start(req) - Start(run));
    var gap := if Start(req) > End(run) then [Zeros(zero, Start(req) - End(run))] else [];
    Request(run.sector, head + gap + Take(req.iov, |Data(req)|))
  }

  lemma JoinedData<T>(zero: T, run: Request<T>, req: Request<T>)
    requires run.sector <= req.sector
    ensures
      var off := Start(req) - Start(run);
      Data(Joined(zero, run, req))
      == (if off <= |Data(run)| then Data(run)[..off] else Data(run) + Zeros(zero, off - |Data(run)|)) + Data(req)
  {
    hide Flatten, Take, Zeros;
    var off: nat := Start(req) - Start(run);
    var head := Take(run.iov, off);
    var gap := if Start(req) > End(run) then [Zeros(zero, Start(req) - End(run))] else [];
    TakeIsPrefix(run.iov, off);
    TakeIsPrefix(req.iov, |Data(req)|);
    FlattenConcat(head + gap, Take(req.iov, |Data(req)|));
    if Start(req) > End(run) {
      FlattenAppend(head, gap[0]);
    } else {
      assert head + gap == head;
    }
  }

  /** What the joined request writes. */
  lemma JoinedAt<T>(zero: T, run: Request<T>, req: Request<T>, p: nat)
    requires run.sector <= req.sector
    ensures
      var j := Joined(zero, run, req);
      && Start(j) == Start(run) && End(j) == End(req)
      && (Covers(req, p) ==> Covers(j, p) && ByteAt(j, p) == ByteAt(req, p))
      && (p < Start(req) && Covers(run, p) ==> Covers(j, p) && ByteAt(j, p) == ByteAt(run, p))
      && (End(run) <= p < Start(req) ==> Covers(j, p) && ByteAt(j, p) == zero)
  {
    hide Flatten, Joined, Data;
    JoinedData(zero, run, req);
    SameSector(zero, run, req);
  }

  lemma SameSector<T>(zero: T, run: Request<T>, req: Request<T>)
    requires run.sector <= req.sector
    ensures Joined(zero, run, req).sector == run.sector
  {}

  predicate Sorted<T>(reqs: seq<Request<T>>) {
    forall i, j :: 0 <= i < j < |reqs| ==> reqs[i].sector <= reqs[j].sector
  }

  /** The run and what is still to come, in order. */
  predicate Ordered<T>(run: Request<T>, rest: seq<Request<T>>) {
    Sorted(rest) && (rest != [] ==> run.sector <= rest[0].sector)
  }

  /** The loop of multiwrite_merge: finished requests, the run being built, the rest. */
  function MergeFrom<T>(zero: T, done: seq<Request<T>>, run: Request<T>, rest: seq<Request<T>>, driver: Driver): (r: seq<Request<T>>)
    requires Ordered(run, rest)
    decreases |rest|
  {
    if rest == [] then done + [run]
    else if Mergeable(run, rest[0], driver) then MergeFrom(zero, done, Joined(zero, run, rest[0]), rest[1..], driver)
    else MergeFrom(zero, done + [run], rest[0], rest[1..], driver)
  }

  // ----- meaning

  lemma AtAppend<T>(reqs: seq<Request<T>>, r: Request<T>, p: nat)
    ensures At(reqs + [r], p) == if Covers(r, p) then Some(ByteAt(r, p)) else At(reqs, p)
  {
    hide Covers, ByteAt;
    assert (reqs + [r])[..|reqs|] == reqs;
  }

  lemma CoveredAppend<T>(reqs: seq<Request<T>>, r: Request<T>, p: nat)
    ensures Covered(reqs + [r], p) <==> Covered(reqs, p) || Covers(r, p)
  {
    hide Covers;
    var all := reqs + [r];
    assert all[|reqs|] == r;
    if Covered(reqs, p) {
      var i :| 0 <= i < |reqs| && Covers(reqs[i], p);
      assert Covers(all[i], p);
    }
  }

  lemma CoveredFirst<T>(reqs: seq<Request<T>>, p: nat)
    requires reqs != []
    ensures Covered(reqs, p) <==> Covers(reqs[0], p) || Covered(reqs[1..], p)
  {
    hide Covers;
    if Covered(reqs, p) {
      var i :| 0 <= i < |reqs| && Covers(reqs[i], p);
      assert i > 0 ==> Covers(reqs[1..][i - 1], p);
    }
    if Covered(reqs[1..], p) {
      var i :| 0 <= i < |reqs[1..]| && Covers(reqs[1..][i], p);
      assert Covers(reqs[i + 1], p);
    }
  }

  lemma {:induction false} AtCovered<T>(reqs: seq<Request<T>>, p: nat)
    ensures At(reqs, p).Some? <==> Covered(reqs, p)
    decreases |reqs|
  {
    hide Covers, ByteAt;
    if reqs != [] {
      var last := |reqs| - 1;
      AtCovered(reqs[..last], p);
      CoveredAppend(reqs[..last], reqs[last], p);
      assert reqs[..last] + [reqs[last]] == reqs;
    }
  }

  /** Nothing that comes later starts before the next request. */
  lemma LaterStarts<T>(rest: seq<Request<T>>, p: nat)
    requires Sorted(rest) && rest != [] && p < Start(rest[0])
    ensures !Covered(rest, p)
  {
    hide Data;
    forall i | 0 <= i < |rest| ensures !Covers(rest[i], p) {}
  }

  /** Joining req to the run loses no byte of a request and covers none with zeros: what the run had
      beyond the end of req comes again later, and the gap before req was not written before. */
  ghost predicate StepKeeps<T>(past: seq<Request<T>>, run: Request<T>, req: Request<T>, later: seq<Request<T>>) {
    && (forall p: nat :: End(req) <= p < End(run) && Covered(past, p) ==> Covered(later, p))
    && (forall p: nat :: End(run) <= p < Start(req) ==> !Covered(past, p))
  }

  /** Every join keeps what it touches.  This depends only on sectors, lengths and io vector counts. */
  ghost predicate Faithful<T>(zero: T, past: seq<Request<T>>, run: Request<T>, rest: seq<Request<T>>, driver: Driver)
    requires Ordered(run, rest)
    decreases |rest|
  {
    if rest == [] then true
    else if Mergeable(run, rest[0], driver) then
      && StepKeeps(past, run, rest[0], rest[1..])
      && Faithful(zero, past + [rest[0]], Joined(zero, run, rest[0]), rest[1..], driver)
    else Faithful(zero, past + [rest[0]], rest[0], rest[1..], driver)
  }

  /** Byte p of the requests seen so far is right, or will be written again. */
  ghost predicate Right<T>(past: seq<Request<T>>, done: seq<Request<T>>, run: Request<T>, rest: seq<Request<T>>, p: nat) {
    Covered(past, p) ==> At(done + [run], p) == At(past, p) || Covered(rest, p)
  }

  lemma JoinKeepsRight<T>(zero: T, past: seq<Request<T>>, done: seq<Request<T>>, run: Request<T>, rest: seq<Request<T>>, p: nat)
    requires Ordered(run, rest) && rest != [] && StepKeeps(past, run, rest[0], rest[1..]) && Right(past, done, run, rest, p)
    ensures Right(past + [rest[0]], done, Joined(zero, run, rest[0]), rest[1..], p)
  {
    hide Flatten, Data, Joined, At, Covered, ByteAt;
    var req := rest[0];
    JoinedAt(zero, run, req, p);
    AtAppend(past, req, p);
    AtAppend(done, run, p);
    AtAppend(done, Joined(zero, run, req), p);
    CoveredAppend(past, req, p);
    CoveredFirst(rest, p);
  }

  lemma NextKeepsRight<T>(past: seq<Request<T>>, done: seq<Request<T>>, run: Request<T>, rest: seq<Request<T>>, p: nat)
    requires rest != [] && Right(past, done, run, rest, p)
    ensures Right(past + [rest[0]], done + [run], rest[0], rest[1..], p)
  {
    hide Covers, At, Covered, ByteAt;
    AtAppend(past, rest[0], p);
    AtAppend(done + [run], rest[0], p);
    CoveredAppend(past, rest[0], p);
    CoveredFirst(rest, p);
  }

  lemma {:induction false} FaithfulKeeps<T>(zero: T, past: seq<Request<T>>, done: seq<Request<T>>, run: Request<T>, rest: seq<Request<T>>,
                                            driver: Driver, p: nat)
    requires Ordered(run, rest) && Faithful(zero, past, run, rest, driver) && Right(past, done, run, rest, p)
    ensures Covered(past + rest, p) ==> At(MergeFrom(zero, done, run, rest, driver), p) == At(past + rest, p)
    decreases |rest|
  {
    hide Joined, At, Covers, Mergeable, StepKeeps, Start, Covered, Right;
    if rest == [] {
      assert past + rest == past;
      RightAtEnd(past, done, run, rest, p);
    } else {
      var req := rest[0];
      assert past + rest == past + [req] + rest[1..];
      if Mergeable(run, req, driver) {
        JoinKeepsRight(zero, past, done, run, rest, p);
        SameSector(zero, run, req);
        FaithfulKeeps(zero, past + [req], done, Joined(zero, run, req), rest[1..], driver, p);
      } else {
        NextKeepsRight(past, done, run, rest, p);
        FaithfulKeeps(zero, past + [req], done + [run], req, rest[1..], driver, p);
      }
    }
  }

  lemma RightAtEnd<T>(past: seq<Request<T>>, done: seq<Request<T>>, run: Request<T>, rest: seq<Request<T>>, p: nat)
    requires Right(past, done, run, rest, p) && rest == []
    ensures Covered(past, p) ==> At(done + [run], p) == At(past, p)
  {}

  // ----- gaps

  /** p lies in a gap that some join filled with zeros. */
  predicate InGap<T>(zero: T, run: Request<T>, rest: seq<Request<T>>, driver: Driver, p: nat)
    requires Ordered(run, rest)
    decreases |rest|
  {
    if rest == [] then false
    else if Mergeable(run, rest[0], driver) then
      End(run) <= p < Start(rest[0]) || InGap(zero, Joined(zero, run, rest[0]), rest[1..], driver, p)
    else InGap(zero, rest[0], rest[1..], driver, p)
  }

  /** What a run holds below everything that is still to come stays. */
  lemma {:induction false} BelowStays<T>(zero: T, done: seq<Request<T>>, run: Request<T>, rest: seq<Request<T>>, driver: Driver, p: nat)
    requires Ordered(run, rest) && (rest != [] ==> p < Start(rest[0]))
    requires rest != [] ==> p < End(run)
    ensures At(MergeFrom(zero, done, run, rest, driver), p) == At(done + [run], p)
    decreases |rest|
  {
    hide Joined, At, ByteAt, Mergeable, Data;
    if rest != [] {
      var req := rest[0];
      if Mergeable(run, req, driver) {
        JoinedAt(zero, run, req, p);
        AtAppend(done, run, p);
        AtAppend(done, Joined(zero, run, req), p);
        SameSector(zero, run, req);
        BelowStays(zero, done, Joined(zero, run, req), rest[1..], driver, p);
      } else {
        AtAppend(done + [run], req, p);
        BelowStays(zero, done + [run], req, rest[1..], driver, p);
      }
    }
  }

  /** Outside the requests only gaps are written, and with zeros. */
  lemma {:induction false} GapsAreZero<T>(zero: T, done: seq<Request<T>>, run: Request<T>, rest: seq<Request<T>>, driver: Driver, p: nat)
    requires Ordered(run, rest) && At(done + [run], p).None? && !Covered(rest, p)
    ensures At(MergeFrom(zero, done, run, rest, driver), p) == if InGap(zero, run, rest, driver, p) then Some(zero) else None
    decreases |rest|
  {
    hide Joined, At, ByteAt, Mergeable, Data, Covered;
    if rest != [] {
      var req := rest[0];
      CoveredFirst(rest, p);
      if Mergeable(run, req, driver) {
        var j := Joined(zero, run, req);
        JoinedAt(zero, run, req, p);
        AtAppend(done, run, p);
        AtAppend(done, j, p);
        SameSector(zero, run, req);
        if End(run) <= p < Start(req) {
          BelowStays(zero, done, j, rest[1..], driver, p);
        } else {
          GapsAreZero(zero, done, j, rest[1..], driver, p);
        }
      } else {
        AtAppend(done + [run], req, p);
        GapsAreZero(zero, done + [run], req, rest[1..], driver, p);
      }
    }
  }

  // ----- the results

  function Merge<T>(zero: T, reqs: seq<Request<T>>, driver: Driver): seq<Request<T>>
    requires reqs != [] && Sorted(reqs)
  {
    MergeFrom(zero, [], reqs[0], reqs[1..], driver)
  }

  ghost predicate FaithfulMerge<T>(zero: T, reqs: seq<Request<T>>, driver: Driver)
    requires reqs != [] && Sorted(reqs)
  {
    Faithful(zero, [reqs[0]], reqs[0], reqs[1..], driver)
  }

  /** Under the condition the merged requests write exactly what the sorted ones write, and zeros
      in the gaps the driver approved. */
  lemma MergePreserves<T>(zero: T, reqs: seq<Request<T>>, driver: Driver, p: nat)
    requires reqs != [] && Sorted(reqs) && FaithfulMerge(zero, reqs, driver)
    ensures At(Merge(zero, reqs, driver), p)
         == if Covered(reqs, p) then At(reqs, p) else if InGap(zero, reqs[0], reqs[1..], driver, p) then Some(zero) else None
  {
    hide At, Covers, ByteAt, MergeFrom, Faithful, InGap;
    var run, rest := reqs[0], reqs[1..];
    assert [run] + rest == reqs && [] + [run] == [run];
    if Covered(reqs, p) {
      FaithfulKeeps(zero, [run], [], run, rest, driver, p);
    } else {
      AtCovered([run], p);
      CoveredFirst(reqs, p);
      assert !Covered([run], p) by { OnlyOne(run, p); }
      GapsAreZero(zero, [], run, rest, driver, p);
    }
  }

  lemma OnlyOne<T>(run: Request<T>, p: nat)
    ensures Covered([run], p) <==> Covers(run, p)
  {
    assert [run][0] == run;
  }

  // ----- requests whose ends are in order too

  predicate EndsFrom<T>(end: nat, rest: seq<Request<T>>) {
    forall i :: 0 <= i < |rest| ==> end <= End(rest[i]) && forall j :: i < j < |rest| ==> End(rest[i]) <= End(rest[j])
  }

  predicate EndedBy<T>(end: nat, past: seq<Request<T>>) {
    forall i :: 0 <= i < |past| ==> End(past[i]) <= end
  }

  lemma EndedNotCovered<T>(end: nat, past: seq<Request<T>>, p: nat)
    requires EndedBy(end, past) && end <= p
    ensures !Covered(past, p)
  {
    hide End;
  }

  lemma {:induction false} EndsAreFaithful<T>(zero: T, past: seq<Request<T>>, run: Request<T>, rest: seq<Request<T>>, driver: Driver)
    requires Ordered(run, rest) && EndedBy(End(run), past) && EndsFrom(End(run), rest)
    ensures Faithful(zero, past, run, rest, driver)
    decreases |rest|
  {
    hide Joined, Flatten, Data, Covered, Mergeable;
    if rest != [] {
      var req := rest[0];
      var next := if Mergeable(run, req, driver) then Joined(zero, run, req) else req;
      JoinedAt(zero, run, req, 0);
      SameSector(zero, run, req);
      assert EndedBy(End(req), past + [req]);
      forall p: nat | End(run) <= p ensures !Covered(past, p) {
        EndedNotCovered(End(run), past, p);
      }
      EndsAreFaithful(zero, past + [req], next, rest[1..], driver);
    }
  }

  /** When no sorted request ends before an earlier one, merging is faithful for every driver. */
  lemma EndsSuffice<T>(zero: T, reqs: seq<Request<T>>, driver: Driver)
    requires reqs != [] && Sorted(reqs) && EndsFrom(0, reqs)
    ensures FaithfulMerge(zero, reqs, driver)
  {
    hide End;
    assert EndedBy(End(reqs[0]), [reqs[0]]);
    EndsAreFaithful(zero, [reqs[0]], reqs[0], reqs[1..], driver);
  }

  // ----- on disk

  predicate AllInside<T>(size: nat, reqs: seq<Request<T>>) {
    forall i :: 0 <= i < |reqs| ==> End(reqs[i]) <= size
  }

  /** The requests issued in order. */
  function Issue<T>(disk: seq<T>, reqs: seq<Request<T>>): (r: seq<T>)
    requires AllInside(|disk|, reqs)
    ensures |r| == |disk|
    decreases |reqs|
  {
    if reqs == [] then disk
    else
      var last := |reqs| - 1;
      var before := Issue(disk, reqs[..last]);
      assert End(reqs[last]) <= |disk|;
      before[..Start(reqs[last])] + Data(reqs[last]) + before[End(reqs[last])..]
  }

  lemma {:induction false} IssueAt<T>(disk: seq<T>, reqs: seq<Request<T>>, p: nat)
    requires AllInside(|disk|, reqs) && p < |disk|
    ensures Issue(disk, reqs)[p] == if At(reqs, p).Some? then At(reqs, p).value else disk[p]
    decreases |reqs|
  {
    hide Flatten;
    if reqs != [] {
      IssueAt(disk, reqs[..|reqs| - 1], p);
      assert End(reqs[|reqs| - 1]) <= |disk|;
    }
  }

  lemma {:induction false} MergeInside<T>(zero: T, size: nat, done: seq<Request<T>>, run: Request<T>, rest: seq<Request<T>>, driver: Driver)
    requires Ordered(run, rest) && AllInside(size, done) && End(run) <= size && AllInside(size, rest)
    ensures AllInside(size, MergeFrom(zero, done, run, rest, driver))
    decreases |rest|
  {
    hide Joined, End, Mergeable;
    if rest != [] {
      var req := rest[0];
      if Mergeable(run, req, driver) {
        JoinedAt(zero, run, req, 0);
        SameSector(zero, run, req);
        MergeInside(zero, size, done, Joined(zero, run, req), rest[1..], driver);
      } else {
        MergeInside(zero, size, done + [run], req, rest[1..], driver);
      }
    }
  }

  /** Issuing the merged requests leaves the disk as the sorted ones would, except for zeros in
      approved gaps. */
  lemma MergeOnDisk<T>(zero: T, disk: seq<T>, reqs: seq<Request<T>>, driver: Driver, p: nat)
    requires reqs != [] && Sorted(reqs) && FaithfulMerge(zero, reqs, driver) && AllInside(|disk|, reqs) && p < |disk|
    ensures AllInside(|disk|, Merge(zero, reqs, driver))
    ensures Issue(disk, Merge(zero, reqs, driver))[p]
         == if !Covered(reqs, p) && InGap(zero, reqs[0], reqs[1..], driver, p) then zero else Issue(disk, reqs)[p]
  {
    hide At, Issue, Faithful, InGap, Covered, MergeFrom, End;
    MergeInside(zero, |disk|, [], reqs[0], reqs[1..], driver);
    MergePreserves(zero, reqs, driver, p);
    IssueAt(disk, reqs, p);
    IssueAt(disk, Merge(zero, reqs, driver), p);
    AtCovered(reqs, p);
  }
}
