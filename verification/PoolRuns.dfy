/** What holds over every run of `Allocate` and `Release` calls on one pool. */
module PoolRuns {
  import opened Words
  import opened Wrappers
  import opened IpPool
  import opened PoolProperties

  datatype Call = Alloc | Rel(num: uint32)

  datatype Outcome = Granted(addr: uint32) | Exhausted | Freed(addr: uint32) | NotFreed

  function Apply(p: Pool, c: Call): (Pool, Outcome) {
    match c
    case Alloc =>
      var (q, r) := AllocateOn(p);
      (q, if r.Some? then Granted(r.value) else Exhausted)
    case Rel(num) =>
      var (q, freed) := ReleaseOn(p, num);
      (q, if freed then Freed(num) else NotFreed)
  }

  /** The pool after a run of calls. */
  function Run(p: Pool, calls: seq<Call>): Pool {
    if calls == [] then p else Apply(Run(p, calls[..|calls| - 1]), calls[|calls| - 1]).0
  }

  /** What call number `k` of a run returned. */
  function OutcomeOf(p: Pool, calls: seq<Call>, k: nat): Outcome
    requires k < |calls|
  {
    Apply(Run(p, calls[..k]), calls[k]).1
  }

  function Grants(p: Pool, calls: seq<Call>): nat {
    if calls == [] then 0
    else Grants(p, calls[..|calls| - 1]) + if OutcomeOf(p, calls, |calls| - 1).Granted? then 1 else 0
  }

  function Frees(p: Pool, calls: seq<Call>): nat {
    if calls == [] then 0
    else Frees(p, calls[..|calls| - 1]) + if OutcomeOf(p, calls, |calls| - 1).Freed? then 1 else 0
  }

  /** A subnet and a pool size that `NewIPPool` can produce with a non-empty prefix. */
  ghost predicate GoodParameters(base: uint32, maxClient: ClientCount) {
    WellFormed(Fresh(base, maxClient))
  }

  // ---------- Every run ----------

  /** One call keeps the pool well-formed and moves the count by exactly what it reports. */
  lemma ApplyKeeps(p: Pool, c: Call)
    requires WellFormed(p)
    ensures var (q, out) := Apply(p, c);
            && WellFormed(q) && q.base == p.base && q.maxClient == p.maxClient
            && q.taken == (match out
                           case Granted(a) => p.taken + {a}
                           case Freed(a) => p.taken - {a}
                           case _ => p.taken)
            && (out.Granted? ==> out.addr in Free(p))
            && (out.Freed? ==> out.addr in p.taken)
            && |q.taken| == |p.taken| + (if out.Granted? then 1 else 0) - (if out.Freed? then 1 else 0)
  {
    match c {
      case Alloc =>
        if AllocateOn(p).1.Some? {
          AllocateGrantsFree(p);
        }
      case Rel(num) =>
        ReleaseFreesTaken(p, num);
    }
  }

  /**
   Over every run from a fresh pool the hint stays in range, only managed addresses are taken, and
   the allocated count is the number of grants minus the number of frees, never above maxClient.
   */
  lemma {:induction false} RunInvariant(base: uint32, maxClient: ClientCount, calls: seq<Call>)
    requires GoodParameters(base, maxClient)
    ensures var q := Run(Fresh(base, maxClient), calls);
            && WellFormed(q) && q.base == base && q.maxClient == maxClient
            && |q.taken| == Grants(Fresh(base, maxClient), calls) - Frees(Fresh(base, maxClient), calls)
            && |q.taken| <= maxClient
    decreases |calls|
  {
    var p := Fresh(base, maxClient);
    if calls != [] {
      var before := calls[..|calls| - 1];
      RunInvariant(base, maxClient, before);
      ApplyKeeps(Run(p, before), calls[|calls| - 1]);
    }
    ManagedSize(Run(p, calls));
  }

  /** Every address a run grants was free just before, and is a managed one. */
  lemma GrantedWasFree(base: uint32, maxClient: ClientCount, calls: seq<Call>, k: nat)
    requires GoodParameters(base, maxClient) && k < |calls|
    requires OutcomeOf(Fresh(base, maxClient), calls, k).Granted?
    ensures var a := OutcomeOf(Fresh(base, maxClient), calls, k).addr;
            && a !in Run(Fresh(base, maxClient), calls[..k]).taken
            && base + 2 <= a <= base + maxClient + 1
  {
    RunInvariant(base, maxClient, calls[..k]);
    ApplyKeeps(Run(Fresh(base, maxClient), calls[..k]), calls[k]);
  }

  lemma {:induction false} GrantedStaysTaken(base: uint32, maxClient: ClientCount, calls: seq<Call>, j: nat, k: nat)
    requires GoodParameters(base, maxClient) && j < k <= |calls|
    requires OutcomeOf(Fresh(base, maxClient), calls, j).Granted?
    requires forall m: nat | j < m < k ::
               OutcomeOf(Fresh(base, maxClient), calls, m) != Freed(OutcomeOf(Fresh(base, maxClient), calls, j).addr)
    ensures OutcomeOf(Fresh(base, maxClient), calls, j).addr in Run(Fresh(base, maxClient), calls[..k]).taken
    decreases k
  {
    hide Apply;
    var p := Fresh(base, maxClient);
    var before := calls[..k - 1];
    assert calls[..k][..k - 1] == before;
    RunInvariant(base, maxClient, before);
    ApplyKeeps(Run(p, before), calls[k - 1]);
    if j < k - 1 {
      GrantedStaysTaken(base, maxClient, calls, j, k - 1);
      assert OutcomeOf(p, calls, k - 1) != Freed(OutcomeOf(p, calls, j).addr);
    }
  }

  /** No run grants the same address twice without freeing it in between. */
  lemma GrantsAreSeparatedByFrees(base: uint32, maxClient: ClientCount, calls: seq<Call>, j: nat, k: nat)
    requires GoodParameters(base, maxClient) && j < k < |calls|
    requires OutcomeOf(Fresh(base, maxClient), calls, j).Granted?
    requires OutcomeOf(Fresh(base, maxClient), calls, k) == OutcomeOf(Fresh(base, maxClient), calls, j)
    ensures exists m: nat | j < m < k ::
              OutcomeOf(Fresh(base, maxClient), calls, m) == Freed(OutcomeOf(Fresh(base, maxClient), calls, j).addr)
  {
    var p := Fresh(base, maxClient);
    GrantedWasFree(base, maxClient, calls, k);
    if forall m: nat | j < m < k :: OutcomeOf(p, calls, m) != Freed(OutcomeOf(p, calls, j).addr) {
      GrantedStaysTaken(base, maxClient, calls, j, k);
    }
  }

  /** The last call of a run that granted or freed an address, if there was one. */
  function LastMove(p: Pool, calls: seq<Call>): Option<Outcome> {
    if calls == [] then None
    else
      var last := OutcomeOf(p, calls, |calls| - 1);
      if last.Granted? || last.Freed? then Some(last) else LastMove(p, calls[..|calls| - 1])
  }

  /** The hint a grant or a free leaves behind: the offset after the granted one, or the freed one. */
  function HintOfMove(base: uint32, maxClient: ClientCount, move: Option<Outcome>): int {
    match move
    case Some(Granted(a)) => if a == base + maxClient + 1 then 2 else a - base + 1
    case Some(Freed(a)) => a - base
    case _ => 2
  }

  /** In every run the hint is what the last grant or free left behind. */
  lemma {:induction false} HintFollowsLastMove(base: uint32, maxClient: ClientCount, calls: seq<Call>)
    requires GoodParameters(base, maxClient)
    ensures var p := Fresh(base, maxClient);
            Run(p, calls).hint == HintOfMove(base, maxClient, LastMove(p, calls))
    decreases |calls|
  {
    if calls != [] {
      var n := |calls| - 1;
      var q := Run(Fresh(base, maxClient), calls[..n]);
      HintFollowsLastMove(base, maxClient, calls[..n]);
      RunInvariant(base, maxClient, calls[..n]);
      MoveSetsHint(q, calls[n]);
      hide Apply;
    }
  }

  lemma MoveSetsHint(p: Pool, c: Call)
    requires WellFormed(p)
    ensures var (q, out) := Apply(p, c);
            q.hint == if out.Granted? || out.Freed? then HintOfMove(p.base, p.maxClient, Some(out)) else p.hint
  {
    match c {
      case Alloc =>
        if AllocateOn(p).1.Some? {
          AllocateGrantsFree(p);
        }
      case Rel(num) =>
        ReleaseFreesTaken(p, num);
    }
  }

  /**
   The hint is 2 after a run exactly if nothing was granted or freed yet, or the last such call freed
   offset 2 or granted the last offset.
   */
  lemma HintTwoArises(base: uint32, maxClient: ClientCount, calls: seq<Call>)
    requires GoodParameters(base, maxClient)
    ensures var p := Fresh(base, maxClient);
            var move := LastMove(p, calls);
            Run(p, calls).hint == 2
            <==> move == None || move == Some(Freed(base + 2)) || move == Some(Granted(base + maxClient + 1))
  {
    hide LastMove, Run;
    HintFollowsLastMove(base, maxClient, calls);
    LastMoveIsManaged(base, maxClient, calls);
  }

  lemma {:induction false} LastMoveIsManaged(base: uint32, maxClient: ClientCount, calls: seq<Call>)
    requires GoodParameters(base, maxClient)
    ensures match LastMove(Fresh(base, maxClient), calls)
            case Some(Granted(a)) => base + 2 <= a <= base + maxClient + 1
            case Some(Freed(a)) => base + 2 <= a <= base + maxClient + 1
            case Some(_) => false
            case None => true
    decreases |calls|
  {
    if calls != [] {
      var n := |calls| - 1;
      LastMoveIsManaged(base, maxClient, calls[..n]);
      RunInvariant(base, maxClient, calls[..n]);
      ApplyKeeps(Run(Fresh(base, maxClient), calls[..n]), calls[n]);
      hide Apply;
    }
  }

  // ---------- Filling a fresh pool ----------

  function Allocs(n: nat): (calls: seq<Call>)
    ensures |calls| == n
    ensures forall k | 0 <= k < n :: calls[k] == Alloc
  {
    if n == 0 then [] else Allocs(n - 1) + [Alloc]
  }

  ghost predicate FilledTo(p: Pool, base: uint32, maxClient: ClientCount, n: nat)
    requires n <= maxClient
  {
    && p.base == base && p.maxClient == maxClient
    && (forall x: uint32 :: x in p.taken <==> base + 2 <= x < base + 2 + n)
    && p.hint == if n == maxClient then 2 else n + 2
  }

  lemma FillStep(p: Pool, base: uint32, maxClient: ClientCount, n: nat)
    requires GoodParameters(base, maxClient)
    requires n <= maxClient && FilledTo(p, base, maxClient, n)
    ensures WellFormed(p)
    ensures n < maxClient ==> AllocateOn(p).1 == Some(base + 2 + n)
                              && FilledTo(AllocateOn(p).0, base, maxClient, n + 1)
    ensures n == maxClient ==> AllocateOn(p) == (p, None)
  {
    if n < maxClient {
      AllocateGrantsFirstFromHint(p, base + 2 + n);
      AllocateGrantsFree(p);
    } else {
      assert Free(p) == {};
      AllocateFailsIff(p);
    }
  }

  lemma {:induction false} FillReaches(base: uint32, maxClient: ClientCount, n: nat)
    requires GoodParameters(base, maxClient)
    ensures FilledTo(Run(Fresh(base, maxClient), Allocs(n)), base, maxClient, if n <= maxClient then n else maxClient)
  {
    if n > 0 {
      FillReaches(base, maxClient, n - 1);
      var p := Run(Fresh(base, maxClient), Allocs(n - 1));
      FillStep(p, base, maxClient, if n - 1 <= maxClient then n - 1 else maxClient);
      assert Allocs(n)[..n - 1] == Allocs(n - 1);
    }
  }

  /**
   On a fresh pool the first maxClient calls of `Allocate` return base + 2, base + 3, and so on in
   order, and every later call fails.
   */
  lemma FreshPoolFillsInOrder(base: uint32, maxClient: ClientCount, n: nat, k: nat)
    requires GoodParameters(base, maxClient) && k < n
    ensures OutcomeOf(Fresh(base, maxClient), Allocs(n), k)
         == if k < maxClient then Granted(base + 2 + k) else Exhausted
  {
    FillReaches(base, maxClient, k);
    assert Allocs(n)[..k] == Allocs(k);
    FillStep(Run(Fresh(base, maxClient), Allocs(k)), base, maxClient, if k <= maxClient then k else maxClient);
  }

  // ---------- When the wrap to offset 3 matters ----------

  /** Some run of calls on the fresh pool ends in this pool. */
  ghost predicate Reaches(base: uint32, maxClient: ClientCount, p: Pool) {
    exists calls :: Run(Fresh(base, maxClient), calls) == p
  }

  /** The pool refuses although an address is free. */
  ghost predicate Stuck(p: Pool) {
    Free(p) != {} && AllocateOn(p).1.None?
  }

  /** Take every address, free offsets 2 and 3, take one again: the hint has then passed offset 2. */
  function StickingRun(base: uint32, maxClient: ClientCount): seq<Call>
    requires base + 3 < 0x1_0000_0000
  {
    Allocs(maxClient) + [Rel(base + 2)] + [Rel(base + 3)] + [Alloc]
  }

  lemma RunSnoc(p: Pool, calls: seq<Call>, c: Call)
    ensures Run(p, calls + [c]) == Apply(Run(p, calls), c).0
  {
    assert (calls + [c])[..|calls|] == calls;
  }

  /** Everything is taken but the offsets from `lo` up to, not including, `hi`. */
  ghost predicate Missing(p: Pool, lo: nat, hi: nat) {
    && WellFormed(p)
    && forall x: uint32 :: x in p.taken <==> IsManaged(p, x) && !(p.base + lo <= x < p.base + hi)
  }

  lemma FullAfterFilling(base: uint32, maxClient: ClientCount)
    requires GoodParameters(base, maxClient)
    ensures var p := Run(Fresh(base, maxClient), Allocs(maxClient));
            Missing(p, 2, 2) && p.base == base && p.maxClient == maxClient
  {
    FillReaches(base, maxClient, maxClient);
    FillStep(Run(Fresh(base, maxClient), Allocs(maxClient)), base, maxClient, maxClient);
  }

  lemma ReleaseMisses(p: Pool, o: nat)
    requires Missing(p, 2, o) && 2 <= o <= p.maxClient + 1
    ensures var q := Apply(p, Rel(p.base + o)).0;
            Missing(q, 2, o + 1) && q.base == p.base && q.maxClient == p.maxClient && q.hint == o
  {
    ReleaseFreesTaken(p, p.base + o);
  }

  lemma AllocateAtThreeSticks(p: Pool)
    requires Missing(p, 2, 4) && p.hint == 3 <= p.maxClient
    ensures var q := Apply(p, Alloc).0;
            WellFormed(q) && Stuck(q) && Free(q) == {p.base + 2}
  {
    hide AllocateOn;
    AllocateGrantsFirstFromHint(p, p.base + 3);
    AllocateGrantsFree(p);
    var q := AllocateOn(p).0;
    assert q.hint == 4;
    assert Free(q) == {p.base + 2};
    AllocateFailsIff(q);
  }

  lemma RunMisses(p: Pool, calls: seq<Call>, o: nat)
    requires Missing(Run(p, calls), 2, o) && 2 <= o <= Run(p, calls).maxClient + 1
    ensures var q := Run(p, calls + [Rel(Run(p, calls).base + o)]);
            && Missing(q, 2, o + 1) && q.hint == o
            && q.base == Run(p, calls).base && q.maxClient == Run(p, calls).maxClient
  {
    ReleaseMisses(Run(p, calls), o);
    RunSnoc(p, calls, Rel(Run(p, calls).base + o));
  }

  lemma RunSticks(p: Pool, calls: seq<Call>)
    requires Missing(Run(p, calls), 2, 4) && Run(p, calls).hint == 3 <= Run(p, calls).maxClient
    ensures Stuck(Run(p, calls + [Alloc]))
  {
    AllocateAtThreeSticks(Run(p, calls));
    RunSnoc(p, calls, Alloc);
  }

  lemma StickingRunSticks(base: uint32, maxClient: ClientCount)
    requires GoodParameters(base, maxClient) && maxClient >= 3
    ensures Stuck(Run(Fresh(base, maxClient), StickingRun(base, maxClient)))
  {
    hide Run;
    hide Missing;
    hide Allocs;
    hide Stuck;
    var p, calls := Fresh(base, maxClient), Allocs(maxClient);
    FullAfterFilling(base, maxClient);
    RunMisses(p, calls, 2);
    RunMisses(p, calls + [Rel(base + 2)], 3);
    RunSticks(p, calls + [Rel(base + 2)] + [Rel(base + 3)]);
  }

  /** With at most two clients a hint of 3 means that offset 2 is taken or offset 3 is free. */
  ghost predicate SmallInvariant(p: Pool) {
    && WellFormed(p) && p.maxClient <= 2
    && (p.hint == 3 ==> p.base + 2 in p.taken || p.base + 3 !in p.taken)
  }

  lemma SmallInvariantHolds(p: Pool, c: Call)
    requires SmallInvariant(p)
    ensures SmallInvariant(Apply(p, c).0)
  {
    hide AllocateOn;
    hide ReleaseOn;
    match c {
      case Alloc =>
        if AllocateOn(p).1.Some? {
          AllocateGrantsFree(p);
        } else {
          FailureLeavesAtMostOneFree(p);
        }
      case Rel(num) =>
        ReleaseFreesTaken(p, num);
    }
  }

  lemma SmallInvariantNotStuck(p: Pool)
    requires SmallInvariant(p)
    ensures !Stuck(p)
  {
    hide AllocateOn;
    AllocateFailsIff(p);
    if p.hint == 3 && p.base + 3 !in p.taken {
      assert p.base + 3 in Free(p);
    }
  }

  lemma {:induction false} SmallPoolNeverSticks(base: uint32, maxClient: ClientCount, calls: seq<Call>)
    requires GoodParameters(base, maxClient) && maxClient <= 2
    ensures SmallInvariant(Run(Fresh(base, maxClient), calls))
    ensures !Stuck(Run(Fresh(base, maxClient), calls))
    decreases |calls|
  {
    hide SmallInvariant;
    var p := Fresh(base, maxClient);
    if calls == [] {
      FreshSmallInvariant(base, maxClient);
    } else {
      var before := calls[..|calls| - 1];
      SmallPoolNeverSticks(base, maxClient, before);
      SmallInvariantHolds(Run(p, before), calls[|calls| - 1]);
    }
    SmallInvariantNotStuck(Run(p, calls));
  }

  lemma FreshSmallInvariant(base: uint32, maxClient: ClientCount)
    requires GoodParameters(base, maxClient) && maxClient <= 2
    ensures SmallInvariant(Fresh(base, maxClient))
  {
  }

  /** Some run makes the pool refuse while an address is free, exactly when maxClient is at least 3. */
  lemma StuckReachableIff(base: uint32, maxClient: ClientCount)
    requires GoodParameters(base, maxClient)
    ensures (exists p :: Reaches(base, maxClient, p) && Stuck(p)) <==> maxClient >= 3
  {
    if maxClient >= 3 {
      StickingRunSticks(base, maxClient);
      assert Reaches(base, maxClient, Run(Fresh(base, maxClient), StickingRun(base, maxClient)));
    } else {
      forall p | Reaches(base, maxClient, p)
        ensures !Stuck(p)
      {
        var calls :| Run(Fresh(base, maxClient), calls) == p;
        SmallPoolNeverSticks(base, maxClient, calls);
      }
    }
  }

  /**
   A stuck pool misses one address only, and stays stuck until some address is freed; the next
   `Allocate` then returns the freed one.
   */
  lemma StuckUntilRelease(p: Pool, c: Call)
    requires WellFormed(p) && Stuck(p)
    ensures |p.taken| == p.maxClient - 1
    ensures !Apply(p, c).1.Freed? ==> Apply(p, c).0 == p
    ensures Apply(p, c).1.Freed? ==> AllocateOn(Apply(p, c).0).1 == Some(Apply(p, c).1.addr)
  {
    AllocateFailsIff(p);
    ManagedSize(p);
    if c.Rel? && ReleaseOn(p, c.num).1 {
      ReleaseThenAllocate(p, c.num);
    }
  }

  // ---------- The wrap the comment in the source describes ----------

  /** `ScanOffset` with the wrap going from maxClient + 1 to 2. */
  function ScanOffsetToTwo(p: Pool, i: uint32): uint32 {
    var offset := Add32(p.hint, i);
    if offset > p.maxClient + 1 then Sub32(offset, p.maxClient) else offset
  }

  lemma WrapToTwoVisits(p: Pool, a: uint32)
    requires WellFormed(p) && a in Managed(p)
    ensures exists i: nat | i < p.maxClient :: p.base + ScanOffsetToTwo(p, i) == a
  {
    var o := a - p.base;
    var i: nat := if o >= p.hint then o - p.hint else o + p.maxClient - p.hint;
    assert Add32(p.hint, i) == p.hint + i;
    assert ScanOffsetToTwo(p, i) == o;
  }

  /** With that wrap the scan meets a free address whenever there is one. */
  lemma WrapToTwoIsComplete(p: Pool)
    requires WellFormed(p)
    ensures (exists i: nat | i < p.maxClient :: p.base + ScanOffsetToTwo(p, i) in Free(p)) <==> Free(p) != {}
  {
    if a :| a in Free(p) {
      WrapToTwoVisits(p, a);
    }
  }
}
