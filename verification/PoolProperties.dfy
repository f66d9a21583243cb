/** What `NewIPPool`, `Allocate` and `Release` guarantee, call by call. */
module PoolProperties {
  import opened Words
  import opened Wrappers
  import opened IpPool
  import opened Collections

  /** The `n` consecutive addresses from `lo` on that fit in 32 bits. */
  ghost function Interval(lo: nat, n: nat): (s: set<uint32>)
    ensures forall x: uint32 :: x in s <==> lo <= x < lo + n
    ensures lo + n <= 0x1_0000_0000 ==> |s| == n
  {
    if n == 0 then {}
    else if lo + n > 0x1_0000_0000 then Interval(lo, n - 1)
    else
      var last: uint32 := lo + n - 1;
      var rest := Interval(lo, n - 1);
      assert last !in rest;
      rest + {last}
  }

  /** The addresses a pool may hand out: offsets 2 through maxClient + 1. */
  ghost function Managed(p: Pool): set<uint32> {
    set x: uint32 | 0 <= x < 0x1_0000_0000 && IsManaged(p, x)
  }

  predicate IsManaged(p: Pool, x: uint32) {
    p.base + 2 <= x <= p.base + p.maxClient + 1
  }

  ghost function Free(p: Pool): set<uint32> {
    Managed(p) - p.taken
  }

  /** What every pool that `NewIPPool` builds satisfies, and what every call keeps. */
  ghost predicate WellFormed(p: Pool) {
    && 1 <= p.maxClient < 0x8000_0000
    && p.base + p.maxClient + 1 < 0x1_0000_0000
    && 2 <= p.hint <= p.maxClient + 1
    && p.taken <= Managed(p)
  }

  // ---------- NewIPPool ----------

  /**
   `NewIPPool` succeeds exactly on IPv4 prefixes of at most 30 bits. The pool sits on the masked
   network address, is empty, has room for the server and the broadcast address beside its
   clients, and holds as many clients as asked for, up to what the subnet offers.
   */
  lemma NewPoolShape(cidr: Cidr, maxClients: int, detected: int)
    requires detected >= 1
    ensures var r := NewPool(cidr, maxClients, detected);
            && (r.Ok? <==> cidr.IPv4? && cidr.ones <= 30)
            && (cidr.IPv4? && cidr.ones > 30 ==> r == Err(SubnetTooSmall))
            && (cidr.Malformed? ==> r == Err(InvalidCidr))
            && (cidr.IPv6? ==> r == Err(OnlyIPv4))
            && (cidr.MappedIPv4? ==> r == Err(MaskBits))
            && (r.Ok? ==>
                  var p, block := r.value, Pow2(32 - cidr.ones);
                  var wanted := if maxClients > 0 then maxClients else detected;
                  && p.base <= cidr.addr < p.base + block <= 0x1_0000_0000
                  && p.base == block * (cidr.addr / block)
                  && p.base + p.maxClient + 1 < p.base + block - 1
                  && p.taken == {} && p.hint == 2
                  && 1 <= p.maxClient <= wanted
                  && (p.maxClient < wanted ==> p.maxClient == block - 3)
                  && (cidr.ones >= 1 || p.maxClient < 0x8000_0000 ==> WellFormed(p)))
  {
    if cidr.IPv4? {
      Pow2Of32();
      MaskedBlockFits(cidr.addr, cidr.ones);
      if cidr.ones <= 30 {
        Pow2Grows(2, 32 - cidr.ones);
      } else {
        Pow2Grows(32 - cidr.ones, 1);
      }
      if cidr.ones >= 1 {
        Pow2Grows(32 - cidr.ones, 31);
      }
    }
  }

  /** No managed address is the network, the server or the broadcast address of the subnet. */
  lemma ManagedAvoidsReserved(cidr: Cidr, maxClients: int, detected: int, a: uint32)
    requires detected >= 1
    requires NewPool(cidr, maxClients, detected).Ok?
    requires a in Managed(NewPool(cidr, maxClients, detected).value)
    ensures var base, block := NewPool(cidr, maxClients, detected).value.base, Pow2(32 - cidr.ones);
            base <= a < base + block && a != base && a != base + 1 && a != base + block - 1
  {
    NewPoolShape(cidr, maxClients, detected);
  }

  // ---------- 32-bit arithmetic ----------

  /** In a well-formed pool no addition of `Allocate` wraps, so the scan is plain arithmetic. */
  lemma ScanIsPlainArithmetic(p: Pool, i: nat)
    requires WellFormed(p) && i < p.maxClient
    ensures p.hint + i < 0x1_0000_0000
    ensures ScanOffset(p, i) == if p.hint + i <= p.maxClient + 1 then p.hint + i else p.hint + i - p.maxClient + 1
    ensures 2 <= ScanOffset(p, i) <= p.maxClient + 1
    ensures Candidate(p, i) == p.base + ScanOffset(p, i) < 0x1_0000_0000
    ensures Candidate(p, i) in Managed(p)
    ensures HintAfter(p, ScanOffset(p, i)) == if ScanOffset(p, i) == p.maxClient + 1 then 2 else ScanOffset(p, i) + 1
  {
    assert Add32(p.hint, i) == p.hint + i;
    var offset := ScanOffset(p, i);
    assert 2 <= offset <= p.maxClient + 1;
    assert Add32(p.base, offset) == p.base + offset;
    assert Add32(offset, 1) == offset + 1;
  }

  ghost predicate SumFits(a: nat, b: nat) {
    a + b < 0x1_0000_0000
  }

  /** The first addition of the scan fits in 32 bits for every hint and round iff maxClient < 2^31. */
  lemma ScanAdditionFitsIff(maxClient: ClientCount)
    requires maxClient >= 1
    ensures (forall hint: nat, i: nat | 2 <= hint <= maxClient + 1 && i < maxClient :: SumFits(hint, i))
       <==> maxClient < 0x8000_0000
  {
    if maxClient >= 0x8000_0000 {
      assert !SumFits(maxClient + 1, maxClient - 1);
    }
  }

  /** The wrapping test of `Release` accepts exactly the managed addresses, even below the base. */
  lemma ReleaseAcceptsManaged(p: Pool, num: uint32)
    requires WellFormed(p)
    ensures InClientRange(p, num) <==> num in Managed(p)
    ensures InClientRange(p, num) ==> num == p.base + Sub32(num, p.base)
  {
    if num < p.base {
      assert Sub32(num, p.base) == num - p.base + 0x1_0000_0000;
    } else {
      assert Sub32(num, p.base) == num - p.base;
    }
  }

  // ---------- Allocate ----------

  /** The scan visits all client offsets when it starts at 2, and all but offset 2 otherwise. */
  lemma ScanCovers(p: Pool, o: int)
    requires WellFormed(p)
    ensures (exists i: nat | i < p.maxClient :: ScanOffset(p, i) == o)
       <==> (if p.hint == 2 then 2 else 3) <= o <= p.maxClient + 1
  {
    forall i: nat | i < p.maxClient
      ensures (if p.hint == 2 then 2 else 3) <= ScanOffset(p, i) <= p.maxClient + 1
    {
      ScanIsPlainArithmetic(p, i);
    }
    if (if p.hint == 2 then 2 else 3) <= o <= p.maxClient + 1 {
      var i: nat := if o >= p.hint then o - p.hint else o + p.maxClient - 1 - p.hint;
      ScanIsPlainArithmetic(p, i);
      assert ScanOffset(p, i) == o;
    }
  }

  lemma ManagedSize(p: Pool)
    requires WellFormed(p)
    ensures |Managed(p)| == p.maxClient
    ensures |p.taken| + |Free(p)| == p.maxClient
    ensures |p.taken| >= p.maxClient <==> Free(p) == {}
  {
    assert Managed(p) == Interval(p.base + 2, p.maxClient) == p.taken + Free(p);
    SubsetSize(p.taken, Managed(p));
  }

  /** A free address is found by the scan unless it is at offset 2 and the scan starts elsewhere. */
  lemma FreeIsFound(p: Pool, a: uint32)
    requires WellFormed(p) && a in Free(p)
    requires p.hint == 2 || a != p.base + 2
    ensures AllocateOn(p).1.Some?
  {
    ManagedSize(p);
    ScanCovers(p, a - p.base);
    var i: nat :| i < p.maxClient && ScanOffset(p, i) == a - p.base;
    ScanIsPlainArithmetic(p, i);
  }

  /**
   `Allocate` fails exactly when the pool is full, or offset 2 is the only free offset and the
   hint is not 2.
   */
  lemma AllocateFailsIff(p: Pool)
    requires WellFormed(p)
    ensures AllocateOn(p).1.None? <==> Free(p) == {} || (p.hint != 2 && Free(p) == {p.base + 2})
  {
    if a: uint32 :| a in Free(p) && (p.hint == 2 || a != p.base + 2) {
      FreeIsFound(p, a);
    } else if Free(p) == {} {
      ManagedSize(p);
    } else {
      assert Free(p) == {p.base + 2};
      OffsetTwoNeedsHintTwo(p);
      if AllocateOn(p).1.Some? {
        AllocateGrantsFree(p);
      }
    }
  }

  /** A failing call changes nothing and leaves at most one address free. */
  lemma FailureLeavesAtMostOneFree(p: Pool)
    requires WellFormed(p) && AllocateOn(p).1.None?
    ensures AllocateOn(p).0 == p
    ensures p.maxClient - 1 <= |p.taken| <= p.maxClient
  {
    AllocateFailsIff(p);
    ManagedSize(p);
    SubsetSize(Free(p), {p.base + 2});
  }

  /** A successful call takes exactly one address, which was free, and moves the hint past it. */
  lemma AllocateGrantsFree(p: Pool)
    requires WellFormed(p) && AllocateOn(p).1.Some?
    ensures var (q, r) := AllocateOn(p);
            && r.value in Free(p)
            && q.taken == p.taken + {r.value} && |q.taken| == |p.taken| + 1
            && q.base == p.base && q.maxClient == p.maxClient
            && q.hint == (if r.value == p.base + p.maxClient + 1 then 2 else r.value - p.base + 1)
            && WellFormed(q)
  {
    ScanIsPlainArithmetic(p, FirstFree(p, 0).value);
  }

  /** A free address at or after the hint is never skipped for a later one, nor for one before the hint. */
  lemma AllocateGrantsFirstFromHint(p: Pool, a: uint32)
    requires WellFormed(p) && a in Free(p) && a - p.base >= p.hint
    ensures var r := AllocateOn(p).1;
            r.Some? && p.base + p.hint <= r.value <= a
  {
    var i: nat := a - p.base - p.hint;
    ScanIsPlainArithmetic(p, i);
    assert Candidate(p, i) == a;
    ManagedSize(p);
    assert FirstFree(p, 0).Some? && FirstFree(p, 0).value <= i;
    ScanIsPlainArithmetic(p, FirstFree(p, 0).value);
  }

  /** If nothing is free at or after the hint, the scan goes on from offset 3 and skips nothing either. */
  lemma AllocateGrantsFirstAfterWrap(p: Pool, a: uint32)
    requires WellFormed(p) && a in Free(p) && 3 <= a - p.base < p.hint
    requires forall x | x in Free(p) :: x - p.base < p.hint
    ensures var r := AllocateOn(p).1;
            r.Some? && p.base + 3 <= r.value <= a
  {
    var i: nat := a - p.base - p.hint + p.maxClient - 1;
    ScanIsPlainArithmetic(p, i);
    assert Candidate(p, i) == a;
    ManagedSize(p);
    assert FirstFree(p, 0).Some? && FirstFree(p, 0).value <= i;
    var first := FirstFree(p, 0).value;
    ScanIsPlainArithmetic(p, first);
    assert Candidate(p, first) in Free(p);
  }

  /** Offset 2 is granted only when the hint is 2. */
  lemma OffsetTwoNeedsHintTwo(p: Pool)
    requires WellFormed(p)
    ensures AllocateOn(p).1 == Some(p.base + 2) ==> p.hint == 2
  {
    if AllocateOn(p).1.Some? {
      var i := FirstFree(p, 0).value;
      ScanIsPlainArithmetic(p, i);
      ScanCovers(p, ScanOffset(p, i));
    }
  }

  // ---------- Release ----------

  /** `Release` frees exactly the addresses that are taken, and nothing else changes but the hint. */
  lemma ReleaseFreesTaken(p: Pool, num: uint32)
    requires WellFormed(p)
    ensures var (q, freed) := ReleaseOn(p, num);
            && (freed <==> num in p.taken)
            && q.taken == p.taken - {num}
            && q.base == p.base && q.maxClient == p.maxClient
            && q.hint == (if freed then num - p.base else p.hint)
            && WellFormed(q)
  {
    ReleaseAcceptsManaged(p, num);
  }

  /** A freed address is the one the next `Allocate` hands out. */
  lemma ReleaseThenAllocate(p: Pool, num: uint32)
    requires WellFormed(p) && ReleaseOn(p, num).1
    ensures AllocateOn(ReleaseOn(p, num).0).1 == Some(num)
    ensures AllocateOn(ReleaseOn(p, num).0).0.taken == p.taken
  {
    ReleaseFreesTaken(p, num);
    var q := ReleaseOn(p, num).0;
    AllocateGrantsFirstFromHint(q, num);
    AllocateGrantsFree(q);
  }

  /** An address just granted can be released, which gives back the pool as it was, hint aside. */
  lemma AllocateThenRelease(p: Pool)
    requires WellFormed(p) && AllocateOn(p).1.Some?
    ensures var q, a := AllocateOn(p).0, AllocateOn(p).1.value;
            ReleaseOn(q, a).1 && ReleaseOn(q, a).0.(hint := p.hint) == p
  {
    hide AllocateOn;
    hide ReleaseOn;
    var q, a := AllocateOn(p).0, AllocateOn(p).1.value;
    AllocateGrantsFree(p);
    ReleaseFreesTaken(q, a);
    assert q.taken - {a} == p.taken;
  }
}
