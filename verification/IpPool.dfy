/**
 The IP pool of server/daemon/ippool.go: what one call of `NewIPPool`, `Allocate` and
 `Release` does, on values, and the class whose methods do it in place.
 */
module IpPool {
  import opened Words
  import opened Wrappers
  import opened Addresses

  datatype PoolError = InvalidCidr | OnlyIPv4 | MaskBits | SubnetTooSmall | PoolExhausted | NotManaged

  type PrefixLength = n: int | 0 <= n <= 32

  /** What `net.ParseCIDR` reports about its argument. */
  datatype Cidr =
    | Malformed
    | IPv6
    | MappedIPv4 // an IPv4-mapped address, whose mask has 128 bits
    | IPv4(addr: uint32, ones: PrefixLength)

  /** How many clients the `int` field `maxClient` can hold once it is capped by the subnet. */
  type ClientCount = n: int | 0 <= n < 0xffff_ffff

  /** The fields of `IPPool` that the algorithms use; `taken` is the set of keys of `allocated`. */
  datatype Pool = Pool(base: uint32, maxClient: ClientCount, taken: set<uint32>, hint: uint32)

  function Pow2(k: nat): (r: nat)
    ensures r >= 1
  {
    if k == 0 then 1 else 2 * Pow2(k - 1)
  }

  // ---------- NewIPPool ----------

  function Fresh(base: uint32, maxClient: ClientCount): Pool {
    Pool(base, maxClient, {}, 2)
  }

  /** `NewIPPool`; `detected` is the outcome of `detectMaxClients`. */
  function NewPool(cidr: Cidr, maxClients: int, detected: int): (r: Result<Pool, PoolError>)
    requires detected >= 1
  {
    match cidr
    case Malformed => Err(InvalidCidr)
    case IPv6 => Err(OnlyIPv4)
    case MappedIPv4 => Err(MaskBits)
    case IPv4(addr, ones) =>
      MaskedBlockFits(addr, ones);
      var totalUsable := Pow2(32 - ones) - 2;
      if totalUsable < 1 then Err(SubnetTooSmall)
      else
        var wanted := if maxClients <= 0 then detected else maxClients;
        var size := if wanted > totalUsable - 1 then totalUsable - 1 else wanted;
        Ok(Fresh(addr - addr % Pow2(32 - ones), size))
  }

  lemma Pow2Of32()
    ensures Pow2(2) == 4
    ensures Pow2(31) == 0x8000_0000
    ensures Pow2(32) == 0x1_0000_0000
  {
    assert Pow2(8) == 0x100;
    assert Pow2(16) == 0x1_0000;
    assert Pow2(24) == 0x100_0000;
    assert Pow2(31) == 0x8000_0000;
  }

  lemma {:induction false} Pow2Grows(j: nat, k: nat)
    requires j <= k
    ensures Pow2(j) <= Pow2(k)
    decreases k
  {
    if j < k {
      Pow2Grows(j, k - 1);
    }
  }

  lemma {:induction false} Pow2Splits(j: nat, k: nat)
    ensures Pow2(j + k) == Pow2(j) * Pow2(k)
  {
    if k > 0 {
      Pow2Splits(j, k - 1);
      DoubleProduct(Pow2(j), Pow2(k - 1));
    }
  }

  lemma DoubleProduct(x: nat, y: nat)
    ensures 2 * (x * y) == x * (2 * y)
  {
  }

  /** A masked network address leaves its whole block inside the 32-bit space. */
  lemma MaskedBlockFits(addr: uint32, ones: PrefixLength)
    ensures 0 <= addr - addr % Pow2(32 - ones)
    ensures addr - addr % Pow2(32 - ones) + Pow2(32 - ones) <= 0x1_0000_0000
    ensures addr - addr % Pow2(32 - ones) == Pow2(32 - ones) * (addr / Pow2(32 - ones))
  {
    Pow2Splits(32 - ones, ones);
    Pow2Of32();
    RoundedDownBlockFits(addr, Pow2(32 - ones), Pow2(ones));
  }

  lemma RoundedDownBlockFits(a: nat, d: nat, n: nat)
    requires d >= 1 && a < d * n
    ensures 0 <= a - a % d && a - a % d + d <= d * n
    ensures a - a % d == d * (a / d)
  {
    var q, r := a / d, a % d;
    assert a == d * q + r;
    if q >= n {
      MulMonotone(d, n, q);
    } else {
      MulMonotone(d, q + 1, n);
    }
  }

  lemma MulMonotone(d: nat, x: nat, y: nat)
    requires x <= y
    ensures d * x <= d * y
  {
    assert d * y == d * x + d * (y - x);
  }

  // ---------- Allocate and Release ----------

  /** The offset examined in round `i` of `Allocate`'s loop, with its wrap at `maxClient + 1`. */
  function ScanOffset(p: Pool, i: uint32): uint32 {
    var offset := Add32(p.hint, i);
    if offset > p.maxClient + 1 then Add32(Sub32(offset, p.maxClient), 1) else offset
  }

  function Candidate(p: Pool, i: uint32): uint32 {
    Add32(p.base, ScanOffset(p, i))
  }

  /** The first round, from round `i` on, that meets a free address. */
  function FirstFree(p: Pool, i: nat): (r: Option<uint32>)
    requires i <= p.maxClient
    ensures r.Some? ==> i <= r.value < p.maxClient && Candidate(p, r.value) !in p.taken
    ensures r.Some? ==> forall j: nat | i <= j < r.value :: Candidate(p, j) in p.taken
    ensures r.None? ==> forall j: nat | i <= j < p.maxClient :: Candidate(p, j) in p.taken
    decreases p.maxClient - i
  {
    if i == p.maxClient then None
    else if Candidate(p, i) !in p.taken then Some(i)
    else FirstFree(p, i + 1)
  }

  function HintAfter(p: Pool, offset: uint32): uint32 {
    var next := Add32(offset, 1);
    if next > p.maxClient + 1 then 2 else next
  }

  /** One call of `Allocate`: the pool afterwards and the address, if one was granted. */
  function AllocateOn(p: Pool): (Pool, Option<uint32>) {
    if |p.taken| >= p.maxClient then (p, None)
    else
      match FirstFree(p, 0)
      case None => (p, None)
      case Some(i) =>
        (p.(taken := p.taken + {Candidate(p, i)}, hint := HintAfter(p, ScanOffset(p, i))),
         Some(Candidate(p, i)))
  }

  /** The range test of `Release` on the wrapped difference `num - baseIP`. */
  predicate InClientRange(p: Pool, num: uint32) {
    2 <= Sub32(num, p.base) <= p.maxClient + 1
  }

  /** One call of `Release`: the pool afterwards and whether the address was freed. */
  function ReleaseOn(p: Pool, num: uint32): (Pool, bool) {
    if !InClientRange(p, num) || num !in p.taken then (p, false)
    else (p.(taken := p.taken - {num}, hint := Sub32(num, p.base)), true)
  }

  // ---------- The mutable pool ----------

  class IPPool {
    const baseIP: uint32
    const maxClient: ClientCount
    var taken: set<uint32>
    var nextHint: uint32

    ghost function State(): Pool
      reads this
    {
      Pool(baseIP, maxClient, taken, nextHint)
    }

    constructor (baseIP: uint32, maxClient: ClientCount)
      ensures State() == Fresh(baseIP, maxClient)
    {
      this.baseIP, this.maxClient, taken, nextHint := baseIP, maxClient, {}, 2;
    }

    /** `NewIPPool`: the checks on the prefix, the size of the pool, and the masked base address. */
    static method NewIPPool(cidr: Cidr, maxClients: int, detected: int) returns (r: Result<IPPool, PoolError>)
      requires detected >= 1
      ensures r.Ok? <==> NewPool(cidr, maxClients, detected).Ok?
      ensures r.Ok? ==> fresh(r.value) && r.value.State() == NewPool(cidr, maxClients, detected).value
      ensures r.Err? ==> r.error == NewPool(cidr, maxClients, detected).error
      ensures r.Ok? ==> cidr.IPv4? && r.value.baseIP <= cidr.addr < r.value.baseIP + Pow2(32 - cidr.ones)
      ensures r.Ok? ==> r.value.maxClient < Pow2(32 - cidr.ones) - 2
    {
      if cidr.Malformed? {
        return Err(InvalidCidr);
      }
      if cidr.IPv6? {
        return Err(OnlyIPv4);
      }
      if cidr.MappedIPv4? {
        return Err(MaskBits);
      }
      MaskedBlockFits(cidr.addr, cidr.ones);
      var block: int := Pow2(32 - cidr.ones); // 1 << (bits - ones)
      var totalUsable := block - 2;
      if totalUsable < 1 {
        return Err(SubnetTooSmall);
      }
      var size := maxClients;
      if size <= 0 {
        size := detected;
      }
      var maxAvail := totalUsable - 1;
      if size > maxAvail {
        size := maxAvail;
      }
      var pool := new IPPool(cidr.addr - cidr.addr % block, size);
      return Ok(pool);
    }

    /** `Allocate`: a circular scan of at most `maxClient` rounds starting at `nextHint`. */
    method Allocate() returns (r: Result<IP, PoolError>)
      modifies this
      ensures State() == AllocateOn(old(State())).0
      ensures AllocateOn(old(State())).1.None? ==> r == Err(PoolExhausted)
      ensures AllocateOn(old(State())).1.Some? ==>
                r == Ok(Uint32ToIp(AllocateOn(old(State())).1.value))
    {
      if |taken| >= maxClient {
        return Err(PoolExhausted);
      }
      var start := nextHint;
      var i := 0;
      while i < maxClient
        invariant 0 <= i <= maxClient
        invariant unchanged(this)
        invariant FirstFree(State(), 0) == FirstFree(State(), i)
      {
        var offset := Add32(start, i);
        if offset > maxClient + 1 {
          offset := Add32(Sub32(offset, maxClient), 1);
        }
        var candidate := Add32(baseIP, offset);
        if candidate !in taken {
          taken := taken + {candidate};
          nextHint := Add32(offset, 1);
          if nextHint > maxClient + 1 {
            nextHint := 2;
          }
          return Ok(Uint32ToIp(candidate));
        }
        i := i + 1;
      }
      return Err(PoolExhausted);
    }

    /** `Release`: frees a managed, allocated address and moves the hint back to it. */
    method Release(ip: IP) returns (r: Result<(), PoolError>)
      modifies this
      ensures To4(ip).None? ==> State() == old(State()) && r == Err(NotManaged)
      ensures To4(ip).Some? ==> State() == ReleaseOn(old(State()), IpToUint32(To4(ip).value)).0
      ensures r.Ok? <==> To4(ip).Some? && ReleaseOn(old(State()), IpToUint32(To4(ip).value)).1
      ensures r.Err? ==> r.error == NotManaged
    {
      var ip4 := To4(ip);
      if ip4.None? {
        return Err(NotManaged);
      }
      var num := IpToUint32(ip4.value);
      var offset := Sub32(num, baseIP);
      if offset < 2 || offset > maxClient + 1 {
        return Err(NotManaged);
      }
      if num !in taken {
        return Err(NotManaged);
      }
      taken := taken - {num};
      nextHint := offset;
      return Ok(());
    }

    method AllocatedCount() returns (n: nat)
      ensures n == |State().taken|
    {
      n := |taken|;
    }
  }
}
