/** How much shared memory a request is given, and why that is always grantable. */
module SizeSelection {
  import opened Arithmetic
  import opened Bytes
  import opened SegmentPool
  import ResponseCodec

  /** Rounds up to a multiple of rep, in `size_t` arithmetic. */
  function RoundUp(n: nat, rep: nat): (rounded: nat)
    requires 0 < rep
  {
    var segments := (n + rep - 1) % SIZE_LIMIT / rep;
    MulOrder(rep, 0, segments);
    rep * segments
  }

  /** The one expression both scheduling strategies use. */
  function SelectShmSize(rep: nat, total: nat, requestCount: nat, numWorkers: nat, fileSize: nat): (size: nat)
    requires 0 < rep && 0 < requestCount + numWorkers
  {
    Max(rep, Min(RoundUp(total / (requestCount + numWorkers), rep), RoundUp(fileSize, rep)))
  }

  function CeilDiv(n: nat, d: nat): (q: nat)
    requires 0 < d
  {
    (n + d - 1) / d
  }

  lemma CeilDivBound(n: nat, d: nat, q: nat)
    requires 0 < d && n <= d * q
    ensures CeilDiv(n, d) <= q
  {
    var c := CeilDiv(n, d);
    assert d * c <= n + d - 1;
    if q < c {
      MulOrder(d, q + 1, c);
      MulDistributes(d, q, 1);
    }
  }

  lemma CeilDivCovers(n: nat, d: nat)
    requires 0 < d
    ensures n <= d * CeilDiv(n, d)
  {
    assert n + d - 1 == d * CeilDiv(n, d) + (n + d - 1) % d;
  }

  lemma DivBound(n: nat, d: nat, q: nat)
    requires 0 < d && n <= d * q
    ensures n / d <= q
  {
    if q < n / d {
      MulOrder(d, q + 1, n / d);
      MulDistributes(d, q, 1);
    }
  }

  /** Rounding up gives at most the segments needed; wrap-around can only make it less. */
  lemma RoundUpBound(n: nat, rep: nat, segments: nat)
    requires 0 < rep && n <= rep * segments
    ensures RoundUp(n, rep) == rep * (RoundUp(n, rep) / rep)
    ensures RoundUp(n, rep) % rep == 0 && RoundUp(n, rep) / rep <= segments
  {
    var wrapped := (n + rep - 1) % SIZE_LIMIT;
    var q := wrapped / rep;
    assert wrapped <= n + rep - 1;
    if segments < q {
      MulOrder(rep, segments + 1, q);
      MulDistributes(rep, segments, 1);
    }
    DivModUnique(RoundUp(n, rep), rep, q, 0);
  }

  /** Without wrap-around, rounding up reaches n. */
  lemma RoundUpCovers(n: nat, rep: nat)
    requires 0 < rep && n + rep <= SIZE_LIMIT
    ensures n <= RoundUp(n, rep)
  {
    assert RoundUp(n, rep) == rep * CeilDiv(n, rep);
    CeilDivCovers(n, rep);
  }

  lemma LargerOf(rep: nat, a: nat, b: nat, size: nat) returns (n: nat)
    requires 0 < rep && a % rep == 0 && b % rep == 0
    requires size == Max(rep, Min(a, b))
    ensures size == rep * n && size % rep == 0 && 1 <= n
    ensures n <= Max(1, a / rep) && n <= Max(1, b / rep)
  {
    DivModUnique(rep, rep, 1, 0);
    n := size / rep;
    MulOrder(rep, 1, n);
    if size != rep {
      MulOrder(rep, n, a / rep);
      MulOrder(rep, n, b / rep);
    }
  }

  /**
   The chosen size is n whole segments, 1 <= n <= N; n is no more than a fair share
   or the file needs, rounded up, and the size reaches one of the two.
   */
  lemma SelectionIsWholeSegments(rep: nat, segments: nat, requestCount: nat, numWorkers: nat, fileSize: nat) returns (n: nat)
    requires 0 < rep && 0 < segments && 0 < requestCount + numWorkers
    ensures var total := rep * segments;
            var size := SelectShmSize(rep, total, requestCount, numWorkers, fileSize);
            && size == rep * n && size % rep == 0
            && rep <= size <= total
            && 1 <= n <= segments
            && n <= Max(1, CeilDiv(segments, requestCount + numWorkers))
            && n <= Max(1, CeilDiv(fileSize, rep))
            && (fileSize + rep <= SIZE_LIMIT && total + rep <= SIZE_LIMIT ==>
                  fileSize <= size || total / (requestCount + numWorkers) <= size)
  {
    var k, total := requestCount + numWorkers, rep * segments;
    var share := FairShare(rep, segments, k);
    CeilDivCovers(fileSize, rep);
    RoundUpBound(total / k, rep, share);
    RoundUpBound(fileSize, rep, CeilDiv(fileSize, rep));
    n := LargerOf(rep, RoundUp(total / k, rep), RoundUp(fileSize, rep),
                  SelectShmSize(rep, total, requestCount, numWorkers, fileSize));
    MulOrder(rep, n, segments);
    if fileSize + rep <= SIZE_LIMIT && total + rep <= SIZE_LIMIT {
      RoundUpCovers(fileSize, rep);
      DivBound(total, k, total);
      RoundUpCovers(total / k, rep);
    }
  }

  /** Without wrap-around, rounding up goes less than one segment beyond n. */
  lemma RoundUpIsClose(n: nat, rep: nat)
    requires 0 < rep && n + rep <= SIZE_LIMIT
    ensures RoundUp(n, rep) < n + rep
  {
    var segments := (n + rep - 1) / rep;
    assert (n + rep - 1) % SIZE_LIMIT == n + rep - 1;
    assert n + rep - 1 == rep * segments + (n + rep - 1) % rep;
  }

  /** Of two multiples, one less than a segment beyond the other is no larger. */
  lemma NoMultipleBetween(rep: nat, size: nat, m: nat)
    requires 0 < rep && size % rep == 0 && m % rep == 0 && size < m + rep
    ensures size <= m
  {
    var p, q := size / rep, m / rep;
    assert size == rep * p && m == rep * q;
    MulDistributes(rep, q, 1);
    if q < p {
      MulOrder(rep, q + 1, p);
    }
  }

  lemma SelectionIsClose(rep: nat, total: nat, k: nat, fileSize: nat, size: nat)
    requires 0 < rep && 0 < k && fileSize + rep <= SIZE_LIMIT && total / k + rep <= SIZE_LIMIT
    requires size == Max(rep, Min(RoundUp(total / k, rep), RoundUp(fileSize, rep)))
    ensures rep < size ==> size < fileSize + rep && size < total / k + rep
  {
    RoundUpIsClose(fileSize, rep);
    RoundUpIsClose(total / k, rep);
  }

  lemma QuotientIsLess(n: nat, k: nat)
    requires 0 < k
    ensures n / k <= n
  {
    MulOrder(k, 0, n);
    DivBound(n, k, n);
  }

  /**
   Unless a sum wraps, the size is the least whole number of segments that holds the file
   or is as large as the fair share, which is the quotient rounded down.
   */
  lemma SelectionIsLeast(rep: nat, segments: nat, requestCount: nat, numWorkers: nat, fileSize: nat)
    requires 0 < rep && 0 < segments && 0 < requestCount + numWorkers
    requires fileSize + rep <= SIZE_LIMIT && rep * segments + rep <= SIZE_LIMIT
    ensures var total, share := rep * segments, rep * segments / (requestCount + numWorkers);
            var size := SelectShmSize(rep, total, requestCount, numWorkers, fileSize);
            && rep <= size && size % rep == 0 && (fileSize <= size || share <= size)
            && (rep < size ==> size < fileSize + rep && size < share + rep)
            && forall m: nat :: rep <= m && m % rep == 0 && (fileSize <= m || share <= m) ==> size <= m
  {
    var k, total := requestCount + numWorkers, rep * segments;
    var size := SelectShmSize(rep, total, requestCount, numWorkers, fileSize);
    var n := SelectionIsWholeSegments(rep, segments, requestCount, numWorkers, fileSize);
    QuotientIsLess(total, k);
    SelectionIsClose(rep, total, k, fileSize, size);
    forall m: nat | rep <= m && m % rep == 0 && (fileSize <= m || total / k <= m)
      ensures size <= m
    {
      if rep < size {
        NoMultipleBetween(rep, size, m);
      }
    }
  }

  lemma FairShare(rep: nat, segments: nat, k: nat) returns (share: nat)
    requires 0 < rep && 0 < segments && 0 < k
    ensures share == CeilDiv(segments, k) && share <= segments
    ensures rep * segments / k <= rep * share && rep * segments <= k * (rep * segments)
  {
    share := CeilDiv(segments, k);
    CeilDivCovers(segments, k);
    MulOrder(rep, segments, k * share);
    assert rep * (k * share) == k * (rep * share);
    DivBound(rep * segments, k, rep * share);
    MulOrder(segments, 1, k);
    CeilDivBound(segments, k, segments);
    MulPositive(rep, segments);
    MulOrder(rep * segments, 1, k);
  }

  /**
   A scheduled request is never refused by the pool, waits only while another
   grant is live, and its response fits a queue slot for pools of up to 6128 segments.
   */
  lemma SelectionIsGrantable(p: Pool, requestCount: nat, numWorkers: nat, fileSize: nat)
    requires Conserved(p) && 0 < |p.free| && 0 < requestCount + numWorkers
    ensures var size := SelectShmSize(p.rep, p.Total(), requestCount, numWorkers, fileSize);
            && 0 < size && size % p.rep == 0
            && (CanGrant(p, size) || exists g :: 0 <= g < |p.live| && p.live[g] != [])
            && (numWorkers == 4 && |p.free| <= 6128 ==> 4 + 4 + HEADER + 4 * (size / p.rep) <= 6144 == ResponseCodec.CLIENT_MSG_SIZE)
  {
    TimesIsProduct(p.rep, |p.free|);
    var n := SelectionIsWholeSegments(p.rep, |p.free|, requestCount, numWorkers, fileSize);
    var size := SelectShmSize(p.rep, p.Total(), requestCount, numWorkers, fileSize);
    DivModUnique(size, p.rep, n, 0);
    if p.available < size {
      WaitingImpliesLiveGrant(p, size);
    }
    if numWorkers == 4 && |p.free| <= 6128 {
      assert |p.free| <= (requestCount + 4) * 1532 by {
        MulOrder(1532, 4, requestCount + 4);
      }
      CeilDivBound(|p.free|, requestCount + 4, 1532);
    }
  }
}
