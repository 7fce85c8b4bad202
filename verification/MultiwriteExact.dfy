/** The condition of Multiwrite is exact: labelling every byte with the request it came from shows that a
    merge that is not faithful takes some byte from the wrong request, or loses it. */
module MultiwriteExact {
  import opened Common
  import opened Iovec
  import opened Multiwrite

  /** Which request a byte came from. */
  datatype Label = Zero | From(index: nat)

  /** Request k carries only its own label. */
  predicate Labelled(reqs: seq<Request<Label>>) {
    forall k, i :: 0 <= k < |reqs| && 0 <= i < |Data(reqs[k])| ==> Data(reqs[k])[i] == From(k)
  }

  /** Every request that writes p writes a zero or a label from lo up to hi. */
  predicate LabelsIn(reqs: seq<Request<Label>>, p: nat, lo: nat, hi: nat) {
    forall i :: 0 <= i < |reqs| && Covers(reqs[i], p) ==> LabelIn(ByteAt(reqs[i], p), lo, hi)
  }

  predicate LabelIn(x: Label, lo: nat, hi: nat) {
    x.Zero? || lo <= x.index < hi
  }

  lemma {:induction false} AtLabelIn(reqs: seq<Request<Label>>, p: nat, lo: nat, hi: nat)
    requires LabelsIn(reqs, p, lo, hi)
    ensures At(reqs, p) == None || LabelIn(At(reqs, p).value, lo, hi)
    decreases |reqs|
  {
    hide Covers, ByteAt;
    if reqs != [] {
      AtLabelIn(reqs[..|reqs| - 1], p, lo, hi);
    }
  }

  lemma LabelsAppend(reqs: seq<Request<Label>>, r: Request<Label>, p: nat, lo: nat, hi: nat)
    requires LabelsIn(reqs, p, lo, hi) && (Covers(r, p) ==> LabelIn(ByteAt(r, p), lo, hi))
    ensures LabelsIn(reqs + [r], p, lo, hi)
  {
    hide Covers, ByteAt;
  }

  /** Bytes that nothing later writes keep their labels, or are lost or zeroed. */
  lemma {:induction false} OldLabelsStay(done: seq<Request<Label>>, run: Request<Label>, rest: seq<Request<Label>>, driver: Driver, p: nat, lo: nat, hi: nat)
    requires Ordered(run, rest) && !Covered(rest, p) && LabelsIn(done, p, lo, hi) && (Covers(run, p) ==> LabelIn(ByteAt(run, p), lo, hi))
    ensures LabelsIn(MergeFrom(Zero, done, run, rest, driver), p, lo, hi)
    decreases |rest|
  {
    hide Joined, ByteAt, Mergeable, Data, Covered, LabelsIn;
    LabelsAppend(done, run, p, lo, hi);
    if rest != [] {
      var req := rest[0];
      CoveredFirst(rest, p);
      if Mergeable(run, req, driver) {
        JoinedAt(Zero, run, req, p);
        SameSector(Zero, run, req);
        OldLabelsStay(done, Joined(Zero, run, req), rest[1..], driver, p, lo, hi);
      } else {
        OldLabelsStay(done + [run], req, rest[1..], driver, p, lo, hi);
      }
    }
  }

  /** The finished requests carry labels below `first`, the run those from `first` up to `next`. */
  ghost predicate Provenance(done: seq<Request<Label>>, run: Request<Label>, first: nat, next: nat, p: nat) {
    first < next && LabelsIn(done, p, 0, first) && (Covers(run, p) ==> LabelIn(ByteAt(run, p), first, next))
  }

  lemma JoinKeepsProvenance(done: seq<Request<Label>>, run: Request<Label>, req: Request<Label>, first: nat, next: nat, p: nat)
    requires run.sector <= req.sector && Provenance(done, run, first, next, p)
    requires Covers(req, p) ==> ByteAt(req, p) == From(next)
    ensures Provenance(done, Joined(Zero, run, req), first, next + 1, p)
  {
    hide Joined, ByteAt, Data, LabelsIn;
    JoinedAt(Zero, run, req, p);
  }

  lemma NextKeepsProvenance(done: seq<Request<Label>>, run: Request<Label>, req: Request<Label>, first: nat, next: nat, p: nat)
    requires Provenance(done, run, first, next, p)
    requires Covers(req, p) ==> ByteAt(req, p) == From(next)
    ensures Provenance(done + [run], req, next, next + 1, p)
  {
    hide Covers, ByteAt;
  }

  lemma {:induction false} AtConcat<T>(a: seq<Request<T>>, b: seq<Request<T>>, p: nat)
    ensures At(a + b, p) == if Covered(b, p) then At(b, p) else At(a, p)
    decreases |b|
  {
    hide Covers, ByteAt, Covered;
    AtCovered(b, p);
    if b == [] {
      assert a + b == a;
    } else {
      var last := |b| - 1;
      assert (a + b)[..|a| + last] == a + b[..last];
      AtConcat(a, b[..last], p);
      AtCovered(b[..last], p);
      CoveredAppend(b[..last], b[last], p);
      assert b[..last] + [b[last]] == b;
    }
  }

  lemma LabelOf(reqs: seq<Request<Label>>, k: nat, p: nat)
    requires Labelled(reqs) && k < |reqs| && Covers(reqs[k], p)
    ensures ByteAt(reqs[k], p) == From(k)
  {
    hide Flatten;
  }

  lemma {:induction false} AtIsLabel(reqs: seq<Request<Label>>, n: nat, p: nat)
    requires Labelled(reqs) && n <= |reqs|
    ensures At(reqs[..n], p) == None || At(reqs[..n], p).value.From?
    decreases n
  {
    hide Covers, ByteAt, Labelled;
    if n > 0 {
      var m: nat := n - 1;
      AtIsLabel(reqs, m, p);
      assert reqs[..n] == reqs[..m] + [reqs[m]];
      AtAppend(reqs[..m], reqs[m], p);
      if Covers(reqs[m], p) {
        LabelOf(reqs, m, p);
      }
    }
  }

  /** The merged requests leave p as the sorted ones do. */
  ghost predicate SameAt<T>(merged: seq<Request<T>>, reqs: seq<Request<T>>, p: nat) {
    Covered(reqs, p) ==> At(merged, p) == At(reqs, p)
  }

  /** A gap over a byte already written puts a zero where the sorted requests have a label. */
  lemma GapOverwrites(past: seq<Request<Label>>, done: seq<Request<Label>>, run: Request<Label>, rest: seq<Request<Label>>,
                      driver: Driver, p: nat)
    requires Ordered(run, rest) && rest != [] && Mergeable(run, rest[0], driver) && Labelled(past + rest)
    requires End(run) <= p < Start(rest[0]) && Covered(past, p)
    ensures !SameAt(MergeFrom(Zero, done, run, rest, driver), past + rest, p)
  {
    hide Joined, At, ByteAt, Data, Covered, Labelled, Mergeable;
    var j := Joined(Zero, run, rest[0]);
    JoinedAt(Zero, run, rest[0], p);
    SameSector(Zero, run, rest[0]);
    AtAppend(done, j, p);
    BelowStays(Zero, done, j, rest[1..], driver, p);
    LaterStarts(rest, p);
    AtConcat(past, rest, p);
    AtCovered(past, p);
    AtCovered(past + rest, p);
    assert (past + rest)[..|past|] == past;
    AtIsLabel(past + rest, |past|, p);
  }

  /** A byte cut off and not written again is no longer the sorted requests' byte. */
  lemma CutLoses(past: seq<Request<Label>>, done: seq<Request<Label>>, run: Request<Label>, rest: seq<Request<Label>>,
                 driver: Driver, first: nat, p: nat)
    requires Ordered(run, rest) && rest != [] && Mergeable(run, rest[0], driver) && Labelled(past + rest)
    requires End(rest[0]) <= p < End(run) && Covered(past, p) && !Covered(rest[1..], p)
    requires Right(past, done, run, rest, p) && Provenance(done, run, first, |past|, p)
    ensures !SameAt(MergeFrom(Zero, done, run, rest, driver), past + rest, p)
  {
    hide Joined, At, ByteAt, Data, Covered, Labelled, Mergeable, LabelsIn;
    var req := rest[0];
    var j := Joined(Zero, run, req);
    CoveredFirst(rest, p);
    JoinedAt(Zero, run, req, p);
    SameSector(Zero, run, req);
    OldLabelsStay(done, j, rest[1..], driver, p, 0, first);
    AtLabelIn(MergeFrom(Zero, done, run, rest, driver), p, 0, first);
    AtAppend(done, run, p);
    AtConcat(past, rest, p);
    AtCovered(past, p);
    AtCovered(past + rest, p);
    assert (past + rest)[..|past|] == past;
    AtIsLabel(past + rest, |past|, p);
  }

  /** If the merged requests mean what the sorted ones mean, every join was faithful. */
  lemma {:induction false} SameImpliesFaithful(past: seq<Request<Label>>, done: seq<Request<Label>>, run: Request<Label>,
                                               rest: seq<Request<Label>>, driver: Driver, first: nat,
                                               all: seq<Request<Label>>, merged: seq<Request<Label>>)
    requires Ordered(run, rest) && all == past + rest && Labelled(all) && merged == MergeFrom(Zero, done, run, rest, driver)
    requires forall p: nat :: Right(past, done, run, rest, p) && Provenance(done, run, first, |past|, p)
    requires forall p: nat :: SameAt(merged, all, p)
    ensures Faithful(Zero, past, run, rest, driver)
    decreases |rest|
  {
    hide Joined, At, ByteAt, Data, Covered, Labelled, Mergeable, LabelsIn, Right, Provenance, SameAt, Covers;
    if rest != [] {
      var req, later := rest[0], rest[1..];
      assert all == past + [req] + later;
      assert all[|past|] == req;
      if Mergeable(run, req, driver) {
        var j := Joined(Zero, run, req);
        JoinIsFaithful(past, done, run, rest, driver, first, all, merged);
        SameSector(Zero, run, req);
        forall p: nat ensures Right(past + [req], done, j, later, p) && Provenance(done, j, first, |past + [req]|, p) {
          JoinKeepsRight(Zero, past, done, run, rest, p);
          if Covers(req, p) { LabelOf(all, |past|, p); }
          JoinKeepsProvenance(done, run, req, first, |past|, p);
        }
        SameImpliesFaithful(past + [req], done, j, later, driver, first, all, merged);
      } else {
        forall p: nat ensures Right(past + [req], done + [run], req, later, p) && Provenance(done + [run], req, |past|, |past + [req]|, p) {
          NextKeepsRight(past, done, run, rest, p);
          if Covers(req, p) { LabelOf(all, |past|, p); }
          NextKeepsProvenance(done, run, req, first, |past|, p);
        }
        SameImpliesFaithful(past + [req], done + [run], req, later, driver, |past|, all, merged);
      }
    }
  }

  lemma JoinIsFaithful(past: seq<Request<Label>>, done: seq<Request<Label>>, run: Request<Label>, rest: seq<Request<Label>>,
                       driver: Driver, first: nat, all: seq<Request<Label>>, merged: seq<Request<Label>>)
    requires Ordered(run, rest) && rest != [] && Mergeable(run, rest[0], driver)
    requires all == past + rest && Labelled(all) && merged == MergeFrom(Zero, done, run, rest, driver)
    requires forall p: nat :: Right(past, done, run, rest, p) && Provenance(done, run, first, |past|, p)
    requires forall p: nat :: SameAt(merged, all, p)
    ensures StepKeeps(past, run, rest[0], rest[1..])
  {
    hide Covered, Labelled, Mergeable, Right, Provenance, SameAt, MergeFrom, Start, End;
    forall p: nat | End(rest[0]) <= p < End(run) && Covered(past, p) ensures Covered(rest[1..], p) {
      assert SameAt(merged, all, p) && Right(past, done, run, rest, p);
      if !Covered(rest[1..], p) {
        CutLoses(past, done, run, rest, driver, first, p);
      }
    }
    forall p: nat | End(run) <= p < Start(rest[0]) ensures !Covered(past, p) {
      assert SameAt(merged, all, p);
      if Covered(past, p) {
        GapOverwrites(past, done, run, rest, driver, p);
      }
    }
  }

  /** For labelled requests the condition is exact. */
  lemma MergeExact(reqs: seq<Request<Label>>, driver: Driver)
    requires reqs != [] && Sorted(reqs) && Labelled(reqs)
    ensures (forall p: nat :: SameAt(Merge(Zero, reqs, driver), reqs, p)) <==> FaithfulMerge(Zero, reqs, driver)
  {
    hide At, Covers, ByteAt, MergeFrom, Faithful, InGap, Labelled, Covered;
    var run, rest := reqs[0], reqs[1..];
    var merged := Merge(Zero, reqs, driver);
    assert [run] + rest == reqs && [] + [run] == [run];
    if FaithfulMerge(Zero, reqs, driver) {
      forall p: nat ensures SameAt(merged, reqs, p) {
        MergePreserves(Zero, reqs, driver, p);
      }
    }
    if forall p: nat :: SameAt(merged, reqs, p) {
      forall p: nat ensures Right([run], [], run, rest, p) && Provenance([], run, 0, |[run]|, p) {
        if Covers(run, p) { LabelOf(reqs, 0, p); }
      }
      SameImpliesFaithful([run], [], run, rest, driver, 0, reqs, merged);
    }
  }

  // ----- the condition depends on the shape alone

  predicate SameLengths<T, U>(a: seq<seq<T>>, b: seq<seq<U>>) {
    |a| == |b| && forall i :: 0 <= i < |a| ==> |a[i]| == |b[i]|
  }

  predicate Alike<T, U>(a: Request<T>, b: Request<U>) {
    a.sector == b.sector && SameLengths(a.iov, b.iov)
  }

  predicate AllAlike<T, U>(a: seq<Request<T>>, b: seq<Request<U>>) {
    |a| == |b| && forall i :: 0 <= i < |a| ==> Alike(a[i], b[i])
  }

  lemma {:induction false} FlattenLength<T, U>(a: seq<seq<T>>, b: seq<seq<U>>)
    requires SameLengths(a, b)
    ensures |Flatten(a)| == |Flatten(b)|
    decreases |a|
  {
    if a != [] {
      FlattenLength(a[1..], b[1..]);
    }
  }

  lemma {:induction false} TakeLengths<T, U>(a: seq<seq<T>>, b: seq<seq<U>>, size: nat)
    requires SameLengths(a, b)
    ensures SameLengths(Take(a, size), Take(b, size))
    decreases |a|
  {
    if a != [] && size > 0 && |a[0]| <= size {
      TakeLengths(a[1..], b[1..], size - |a[0]|);
    }
  }

  lemma AlikeEnds<T, U>(a: Request<T>, b: Request<U>)
    requires Alike(a, b)
    ensures Start(a) == Start(b) && End(a) == End(b) && Sectors(a) == Sectors(b) && |Data(a)| == |Data(b)|
  {
    FlattenLength(a.iov, b.iov);
  }

  lemma JoinedAlike<T, U>(zero: T, zero': U, a: Request<T>, b: Request<T>, a': Request<U>, b': Request<U>)
    requires Alike(a, a') && Alike(b, b') && a.sector <= b.sector
    ensures Alike(Joined(zero, a, b), Joined(zero', a', b'))
  {
    hide Flatten, Data, Take;
    AlikeEnds(a, a');
    AlikeEnds(b, b');
    TakeLengths(a.iov, a'.iov, Start(b) - Start(a));
    TakeLengths(b.iov, b'.iov, |Data(b)|);
  }

  lemma CoveredAlike<T, U>(a: seq<Request<T>>, b: seq<Request<U>>, p: nat)
    requires AllAlike(a, b)
    ensures Covered(a, p) == Covered(b, p)
  {
    hide Start, End;
    forall i | 0 <= i < |a| ensures Covers(a[i], p) == Covers(b[i], p) {
      AlikeEnds(a[i], b[i]);
    }
  }

  lemma StepAlike<T, U>(past: seq<Request<T>>, run: Request<T>, req: Request<T>, later: seq<Request<T>>,
                        past': seq<Request<U>>, run': Request<U>, req': Request<U>, later': seq<Request<U>>)
    requires AllAlike(past, past') && Alike(run, run') && Alike(req, req') && AllAlike(later, later')
    ensures StepKeeps(past, run, req, later) ==> StepKeeps(past', run', req', later')
  {
    hide Start, End, Covered, Alike;
    AlikeEnds(run, run');
    AlikeEnds(req, req');
    if StepKeeps(past, run, req, later) {
      forall p: nat | End(req') <= p < End(run') && Covered(past', p) ensures Covered(later', p) {
        CoveredAlike(past, past', p);
        CoveredAlike(later, later', p);
      }
      forall p: nat | End(run') <= p < Start(req') ensures !Covered(past', p) {
        CoveredAlike(past, past', p);
      }
    }
  }

  lemma {:induction false} FaithfulAlike<T, U>(zero: T, zero': U, past: seq<Request<T>>, run: Request<T>, rest: seq<Request<T>>,
                                               past': seq<Request<U>>, run': Request<U>, rest': seq<Request<U>>, driver: Driver)
    requires AllAlike(past, past') && Alike(run, run') && AllAlike(rest, rest') && Ordered(run, rest) && Ordered(run', rest')
    ensures Faithful(zero, past, run, rest, driver) ==> Faithful(zero', past', run', rest', driver)
    decreases |rest|
  {
    hide Joined, StepKeeps, Flatten, Start, Data, Covered;
    if rest != [] {
      var req, req' := rest[0], rest'[0];
      AlikeEnds(run, run');
      AlikeEnds(req, req');
      assert AllAlike(past + [req], past' + [req']);
      if Mergeable(run, req, driver) {
        StepAlike(past, run, req, rest[1..], past', run', req', rest'[1..]);
        JoinedAlike(zero, zero', run, req, run', req');
        SameSector(zero, run, req);
        SameSector(zero', run', req');
        FaithfulAlike(zero, zero', past + [req], Joined(zero, run, req), rest[1..],
                      past' + [req'], Joined(zero', run', req'), rest'[1..], driver);
      } else {
        FaithfulAlike(zero, zero', past + [req], req, rest[1..], past' + [req'], req', rest'[1..], driver);
      }
    }
  }

  /** The requests with every byte replaced by the label of its request. */
  function Relabel<T>(reqs: seq<Request<T>>): (r: seq<Request<Label>>)
    ensures AllAlike(reqs, r)
  {
    seq(|reqs|, k requires 0 <= k < |reqs| =>
      Request(reqs[k].sector, seq(|reqs[k].iov|, i requires 0 <= i < |reqs[k].iov| => seq(|reqs[k].iov[i]|, _ => From(k)))))
  }

  lemma {:induction false} FlattenUniform(iov: seq<seq<Label>>, x: Label, i: nat)
    requires forall k, j :: 0 <= k < |iov| && 0 <= j < |iov[k]| ==> iov[k][j] == x
    requires i < |Flatten(iov)|
    ensures Flatten(iov)[i] == x
    decreases |iov|
  {
    if i < |iov[0]| {
      assert Flatten(iov)[i] == iov[0][i];
    } else {
      FlattenUniform(iov[1..], x, i - |iov[0]|);
    }
  }

  lemma RelabelIsLabelled<T>(reqs: seq<Request<T>>)
    ensures Labelled(Relabel(reqs))
  {
    var r := Relabel(reqs);
    forall k, i | 0 <= k < |r| && 0 <= i < |Data(r[k])| ensures Data(r[k])[i] == From(k) {
      FlattenUniform(r[k].iov, From(k), i);
    }
  }

  /** For any payloads: the condition holds exactly when, byte by byte, the merged requests take
      each byte from the request the sorted ones take it from. */
  lemma FaithfulIffSameSource<T>(zero: T, reqs: seq<Request<T>>, driver: Driver)
    requires reqs != [] && Sorted(reqs)
    ensures Sorted(Relabel(reqs))
    ensures FaithfulMerge(zero, reqs, driver)
       <==> forall p: nat :: SameAt(Merge(Zero, Relabel(reqs), driver), Relabel(reqs), p)
  {
    hide Relabel, Faithful, SameAt, Merge;
    var r := Relabel(reqs);
    RelabelIsLabelled(reqs);
    MergeExact(r, driver);
    assert AllAlike(reqs, r);
    AlikeBack(reqs, r);
    FaithfulAlike(zero, Zero, [reqs[0]], reqs[0], reqs[1..], [r[0]], r[0], r[1..], driver);
    FaithfulAlike(Zero, zero, [r[0]], r[0], r[1..], [reqs[0]], reqs[0], reqs[1..], driver);
  }

  lemma AlikeBack<T, U>(a: seq<Request<T>>, b: seq<Request<U>>)
    requires AllAlike(a, b)
    ensures AllAlike(b, a)
  {}

  /** A request cut by a shorter one that starts with it loses its second sector. */
  lemma CutTailIsLost(driver: Driver)
    ensures
      var a, b := Request(0, [seq(1024, _ => 1)]), Request(0, [seq(512, _ => 2)]);
      && Sorted([a, b]) && At([a, b], 512) == Some(1) && At(Merge(0, [a, b], driver), 512) == None
  {
    hide Flatten;
    var a, b := Request(0, [seq(1024, _ => 1)]), Request(0, [seq(512, _ => 2)]);
    OneVector(a);
    OneVector(b);
    assert [a, b][1..] == [b] && [b][1..] == [] && [a, b][..1] == [a] && [a][..0] == [];
    JoinedAt(0, a, b, 512);
    var j := Joined(0, a, b);
    assert Mergeable(a, b, driver);
    assert MergeFrom(0, [], j, [b][1..], driver) == [] + [j];
    assert Merge(0, [a, b], driver) == MergeFrom(0, [], j, [b][1..], driver);
    assert ([] + [j])[..0] == [];
  }

  /** The data of a request with a single io vector. */
  lemma OneVector(r: Request<int>)
    requires |r.iov| == 1
    ensures Data(r) == r.iov[0]
  {
    var rest := r.iov[1..];
    assert Flatten(rest) == [] && Flatten(r.iov) == r.iov[0] + Flatten(rest);
  }

  /** The data of many io vectors of one sector each, all of the same byte. */
  lemma {:induction false} SameBytes(iov: seq<seq<int>>, x: int)
    requires forall i :: 0 <= i < |iov| ==> iov[i] == seq(512, _ => x)
    ensures |Flatten(iov)| == 512 * |iov| && forall k :: 0 <= k < |Flatten(iov)| ==> Flatten(iov)[k] == x
  {
    if iov != [] {
      SameBytes(iov[1..], x);
    }
  }

  /** The steps of merging three requests of which only the last two can be joined. */
  lemma MergeLastTwo(a: Request<int>, b: Request<int>, c: Request<int>, driver: Driver)
    requires Sorted([a, b, c]) && !Mergeable(a, b, driver) && Mergeable(b, c, driver)
    ensures b.sector <= c.sector && Merge(0, [a, b, c], driver) == [a, Joined(0, b, c)]
  {
    hide Mergeable, Joined;
    var reqs := [a, b, c];
    assert reqs[0].sector <= reqs[1].sector <= reqs[2].sector;
    assert reqs[1..] == [b, c] && [b, c][1..] == [c] && [c][1..] == [];
    var j := Joined(0, b, c);
    assert MergeFrom(0, [a], j, [], driver) == [a] + [j];
    assert MergeFrom(0, [a], b, [c], driver) == MergeFrom(0, [a], j, [c][1..], driver);
    assert [] + [a] == [a];
    assert MergeFrom(0, [], a, [b, c], driver) == MergeFrom(0, [a], b, [b, c][1..], driver);
  }

  /** A long request of 1023 io vectors is left alone by one that starts inside it, since the joined vector
      would be too long; when the driver then lets the next request be joined over a gap, the zeros that
      fill the gap go over the long request's data. */
  lemma GapOverLongRequest(driver: Driver)
    requires driver(1, 1, 3, 1)
    ensures
      var a, b, c := Request(0, seq(1023, _ => seq(512, _ => 1))), Request(1, [seq(512, _ => 2)]), Request(3, [seq(512, _ => 3)]);
      && Sorted([a, b, c]) && At([a, b, c], 1024) == Some(1) && At(Merge(0, [a, b, c], driver), 1024) == Some(0)
  {
    hide Flatten, Joined, Mergeable;
    var a, b, c := Request(0, seq(1023, _ => seq(512, _ => 1))), Request(1, [seq(512, _ => 2)]), Request(3, [seq(512, _ => 3)]);
    SameBytes(a.iov, 1);
    OneVector(b);
    OneVector(c);
    assert !Mergeable(a, b, driver) by { TooLong(a, b, driver); }
    assert Mergeable(b, c, driver) by { Approved(b, c, driver); }
    MergeLastTwo(a, b, c, driver);
    JoinedAt(0, b, c, 1024);
    var j := Joined(0, b, c);
    assert [a, j][..1] == [a];
    assert [a, b, c][..2] == [a, b] && [a, b][..1] == [a] && [a][..0] == [];
    assert At([a], 1024) == Some(ByteAt(a, 1024));
    assert At([a, b], 1024) == At([a], 1024);
  }

  lemma TooLong(a: Request<int>, b: Request<int>, driver: Driver)
    requires |a.iov| == 1023 && |b.iov| == 1
    ensures !Mergeable(a, b, driver)
  {
    hide Flatten;
  }

  lemma Approved(b: Request<int>, c: Request<int>, driver: Driver)
    requires |b.iov| == |c.iov| == 1 && driver(b.sector, Sectors(b), c.sector, Sectors(c))
    ensures Mergeable(b, c, driver)
  {
    hide Flatten;
  }
}
