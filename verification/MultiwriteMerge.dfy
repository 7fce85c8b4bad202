/** multiwrite_merge on the caller's array: sort, then join in place. */
module MultiwriteMerge {
  import opened Iovec
  import opened Multiwrite

  method Insert<T>(r: seq<Request<T>>, x: Request<T>) returns (r': seq<Request<T>>)
    requires Sorted(r)
    ensures Sorted(r') && multiset(r') == multiset(r) + multiset{x}
  {
    var k := |r|;
    while k > 0 && r[k - 1].sector > x.sector
      invariant 0 <= k <= |r| && forall j :: k <= j < |r| ==> r[j].sector > x.sector
    {
      k := k - 1;
    }
    InsertSorted(r, k, x);
    InsertMultiset(r, k, x);
    r' := r[..k] + [x] + r[k..];
  }

  lemma InsertMultiset<T>(r: seq<Request<T>>, k: nat, x: Request<T>)
    requires k <= |r|
    ensures multiset(r[..k] + [x] + r[k..]) == multiset(r) + multiset{x}
  {
    assert r == r[..k] + r[k..];
  }

  /** Sorting by start sector; requests of one sector may come in any order. */
  method SortRequests<T>(reqs: seq<Request<T>>) returns (r: seq<Request<T>>)
    ensures Sorted(r) && multiset(r) == multiset(reqs)
  {
    hide Sorted;
    r := [];
    assert Sorted(r) by { NothingSorted(r); }
    for i := 0 to |reqs|
      invariant Sorted(r) && multiset(r) == multiset(reqs[..i])
    {
      assert reqs[..i + 1] == reqs[..i] + [reqs[i]];
      r := Insert(r, reqs[i]);
    }
    assert reqs[..|reqs|] == reqs;
  }

  lemma NothingSorted<T>(r: seq<Request<T>>)
    requires r == []
    ensures Sorted(r)
  {}

  lemma InsertSorted<T>(r: seq<Request<T>>, k: nat, x: Request<T>)
    requires Sorted(r) && k <= |r| && (k > 0 ==> r[k - 1].sector <= x.sector) && forall j :: k <= j < |r| ==> r[j].sector > x.sector
    ensures Sorted(r[..k] + [x] + r[k..])
  {
    var s := r[..k] + [x] + r[k..];
    forall i, j | 0 <= i < j < |s| ensures s[i].sector <= s[j].sector {
      assert i < k ==> s[i] == r[i];
      assert i > k ==> s[i] == r[i - 1];
      assert j < k ==> s[j] == r[j];
      assert j > k ==> s[j] == r[j - 1];
    }
  }

  /** The body of the merge: the io vectors of the run, the zeros, and those of the request. */
  method Join<T>(zero: T, run: Request<T>, req: Request<T>) returns (j: Request<T>)
    requires run.sector <= req.sector && WholeSectors(run)
    ensures j == Joined(zero, run, req)
  {
    hide Flatten, Take;
    var oldLast := run.sector + Sectors(run);
    var iov := Concat([], run.iov, 512 * (req.sector - run.sector));
    if req.sector > oldLast {
      iov := iov + [Zeros(zero, 512 * (req.sector - oldLast))];
    }
    iov := Concat(iov, req.iov, |Data(req)|);
    j := Request(run.sector, iov);
  }

  lemma JoinedWhole<T>(zero: T, run: Request<T>, req: Request<T>)
    requires run.sector <= req.sector && WholeSectors(req)
    ensures WholeSectors(Joined(zero, run, req))
  {
    hide Joined, Flatten, Data;
    JoinedAt(zero, run, req, 0);
  }

  /** The three tests that decide whether the request joins the run. */
  method ShouldMerge<T>(run: Request<T>, req: Request<T>, driver: Driver) returns (merge: bool)
    requires WholeSectors(run)
    ensures merge == Mergeable(run, req, driver)
  {
    hide Flatten;
    merge := req.sector <= run.sector + Sectors(run);
    if !merge {
      merge := driver(run.sector, Sectors(run), req.sector, Sectors(req));
    }
    if |run.iov| + |req.iov| + 1 > 1024 {
      merge := false;
    }
    WholeEnd(run, req);
  }

  /** The array holds the sorted requests. */
  method SortInPlace<T>(reqs: array<Request<T>>) returns (ghost sorted: seq<Request<T>>)
    modifies reqs
    ensures multiset(sorted) == multiset(old(reqs[..])) && Sorted(sorted) && reqs[..] == sorted
  {
    hide Sorted;
    var s := SortRequests(reqs[..]);
    sorted := s;
    SameLengthOfMultiset(s, reqs[..]);
    for k := 0 to reqs.Length
      invariant forall j :: 0 <= j < k ==> reqs[j] == s[j]
    {
      reqs[k] := s[k];
    }
  }

  lemma SortedTail<T>(s: seq<Request<T>>, i: nat)
    requires Sorted(s) && i < |s|
    ensures Sorted(s[i..]) && s[i..][0] == s[i] && s[i..][1..] == s[i + 1..] && Sorted(s[i + 1..]) && Ordered(s[i], s[i + 1..])
  {}

  /** multiwrite_merge: the first n entries of the array become the merged requests. */
  method MergeRequests<T>(zero: T, reqs: array<Request<T>>, driver: Driver) returns (n: nat, ghost sorted: seq<Request<T>>)
    requires reqs.Length > 0 && forall i :: 0 <= i < reqs.Length ==> WholeSectors(reqs[i])
    modifies reqs
    ensures multiset(sorted) == multiset(old(reqs[..])) && sorted != [] && Sorted(sorted)
    ensures n <= reqs.Length && reqs[..n] == Merge(zero, sorted, driver)
  {
    hide Joined, Sorted, Ordered, Mergeable, WholeSectors;
    ghost var before := reqs[..];
    sorted := SortInPlace(reqs);
    WholeOfMultiset(sorted, before);
    SortedTail(sorted, 0);
    var out := 0;
    assert reqs[..0] == [] && sorted[0] == reqs[0];
    for i := 1 to reqs.Length
      invariant out < i && WholeSectors(reqs[out]) && Ordered(reqs[out], sorted[i..])
      invariant reqs[i..] == sorted[i..]
      invariant Merge(zero, sorted, driver) == MergeFrom(zero, reqs[..out], reqs[out], sorted[i..], driver)
    {
      var run, req := reqs[out], reqs[i];
      ghost var done := reqs[..out];
      SortedTail(sorted, i);
      assert req == sorted[i] && reqs[i + 1..] == sorted[i + 1..];
      OrderedNext(zero, run, sorted[i..]);
      var merge := ShouldMerge(run, req, driver);
      if merge {
        reqs[out] := Join(zero, run, req);
        JoinedWhole(zero, run, req);
        assert reqs[..out] == done;
      } else {
        out := out + 1;
        reqs[out] := req;
        assert reqs[..out] == done + [run];
      }
    }
    n := out + 1;
    assert reqs[..n] == reqs[..out] + [reqs[out]];
  }

  lemma OrderedNext<T>(zero: T, run: Request<T>, rest: seq<Request<T>>)
    requires Ordered(run, rest) && rest != []
    ensures run.sector <= rest[0].sector && Ordered(Joined(zero, run, rest[0]), rest[1..]) && Ordered(rest[0], rest[1..])
  {
    hide Joined;
    SameSector(zero, run, rest[0]);
  }

  lemma WholeEnd<T>(run: Request<T>, req: Request<T>)
    requires WholeSectors(run)
    ensures Start(req) <= End(run) <==> req.sector <= run.sector + Sectors(run)
  {
    hide Flatten;
  }

  lemma SameLengthOfMultiset<T>(a: seq<T>, b: seq<T>)
    requires multiset(a) == multiset(b)
    ensures |a| == |b|
  {
    assert |multiset(a)| == |a| && |multiset(b)| == |b|;
  }

  lemma WholeOfMultiset<T>(a: seq<Request<T>>, b: seq<Request<T>>)
    requires multiset(a) == multiset(b) && forall i :: 0 <= i < |b| ==> WholeSectors(b[i])
    ensures forall i :: 0 <= i < |a| ==> WholeSectors(a[i])
  {
    hide WholeSectors;
    forall i | 0 <= i < |a| ensures WholeSectors(a[i]) {
      assert a[i] in multiset(a);
      assert a[i] in b;
    }
  }
}
