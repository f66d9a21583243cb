/**
 The life of client sessions in server/daemon/daemon.go: any number of `handleConnection` handlers
 and any number of `Close` calls, interleaved. Each section that holds a mutex is one atomic step.
 */
module Sessions {
  import opened Words
  import opened Wrappers
  import opened IpPool
  import opened PoolProperties

  type HandlerId = nat

  /** Where a handler is in `handleConnection`. */
  datatype Phase =
    | Connecting           // nothing acquired yet: stream, request, authentication
    | Replying(ip: uint32) // the address is allocated, the session not registered
    | Serving(ip: uint32)  // the session is registered, until the context ends
    | Leaving(ip: uint32)  // the map entry is deleted, the address not yet released
    | Done

  /**
   Whether a `Close` holds `sessionsMu`, and the key whose address it has released but whose entry it
   has not deleted yet. Pool operations of handlers can come in between.
   */
  datatype Sweep = NotSweeping | Sweeping(pending: Option<uint32>)

  /**
   `sessions` maps a key to the handler that stored its session object there; `addressOf` is the
   `assignedIP` field of each session object ever created; `swept` records whether some `Close` has
   released an address.
   */
  datatype Server = Server(
    pool: Pool,
    sessions: map<uint32, HandlerId>,
    handlers: map<HandlerId, Phase>,
    addressOf: map<HandlerId, uint32>,
    sweep: Sweep,
    swept: bool)

  datatype Step =
    | Accept(h: HandlerId)          // daemon.go:365
    | Reject(h: HandlerId)          // every return before the allocation
    | AllocateIp(h: HandlerId)      // daemon.go:402
    | ReplyFails(h: HandlerId)      // daemon.go:419-422
    | RegisterSession(h: HandlerId) // daemon.go:438-440
    | Unregister(h: HandlerId)      // daemon.go:444-446
    | ReleaseIp(h: HandlerId)       // daemon.go:447
    | CloseBegins                   // daemon.go:318
    | SweepRelease(key: uint32)     // daemon.go:322
    | SweepDelete                   // daemon.go:323
    | CloseEnds                     // daemon.go:325

  function Start(base: uint32, maxClient: ClientCount): Server {
    Server(Fresh(base, maxClient), map[], map[], map[], NotSweeping, false)
  }

  predicate AtPhase(s: Server, h: HandlerId, p: Phase) {
    h in s.handlers && s.handlers[h] == p
  }

  predicate Enabled(s: Server, step: Step) {
    match step
    case Accept(h) => h !in s.handlers
    case Reject(h) => AtPhase(s, h, Connecting)
    case AllocateIp(h) => AtPhase(s, h, Connecting)
    case ReplyFails(h) => h in s.handlers && s.handlers[h].Replying?
    case RegisterSession(h) => h in s.handlers && s.handlers[h].Replying? && s.sweep.NotSweeping?
    case Unregister(h) => h in s.handlers && s.handlers[h].Serving? && s.sweep.NotSweeping?
    case ReleaseIp(h) => h in s.handlers && s.handlers[h].Leaving?
    case CloseBegins => s.sweep.NotSweeping?
    case SweepRelease(key) => s.sweep == Sweeping(None) && key in s.sessions && s.sessions[key] in s.addressOf
    case SweepDelete => s.sweep.Sweeping? && s.sweep.pending.Some?
    case CloseEnds => s.sweep == Sweeping(None) && s.sessions == map[]
  }

  function Take(s: Server, step: Step): Server
    requires Enabled(s, step)
  {
    match step
    case Accept(h) => s.(handlers := s.handlers[h := Connecting])
    case Reject(h) => s.(handlers := s.handlers[h := Done])
    case AllocateIp(h) =>
      var (pool, granted) := AllocateOn(s.pool);
      s.(pool := pool, handlers := s.handlers[h := if granted.Some? then Replying(granted.value) else Done])
    case ReplyFails(h) =>
      s.(pool := ReleaseOn(s.pool, s.handlers[h].ip).0, handlers := s.handlers[h := Done])
    case RegisterSession(h) =>
      var ip := s.handlers[h].ip;
      s.(sessions := s.sessions[ip := h], addressOf := s.addressOf[h := ip], handlers := s.handlers[h := Serving(ip)])
    case Unregister(h) =>
      var ip := s.handlers[h].ip;
      s.(sessions := s.sessions - {ip}, handlers := s.handlers[h := Leaving(ip)])
    case ReleaseIp(h) =>
      s.(pool := ReleaseOn(s.pool, s.handlers[h].ip).0, handlers := s.handlers[h := Done])
    case CloseBegins => s.(sweep := Sweeping(None))
    case SweepRelease(key) =>
      s.(pool := ReleaseOn(s.pool, s.addressOf[s.sessions[key]]).0, sweep := Sweeping(Some(key)), swept := true)
    case SweepDelete => s.(sessions := s.sessions - {s.sweep.pending.value}, sweep := Sweeping(None))
    case CloseEnds => s.(sweep := NotSweeping)
  }

  /** A scheduler may propose any step; a step that is not enabled does nothing. */
  function Apply(s: Server, step: Step): Server {
    if Enabled(s, step) then Take(s, step) else s
  }

  /** Every interleaving is some sequence of steps. */
  function Run(s: Server, steps: seq<Step>): Server {
    if steps == [] then s else Apply(Run(s, steps[..|steps| - 1]), steps[|steps| - 1])
  }

  // ---------- Every interleaving ----------

  predicate HasIp(p: Phase) {
    p.Replying? || p.Serving? || p.Leaving?
  }

  /** Handler `h` has an address that it still has to release. */
  predicate Holds(s: Server, h: HandlerId, a: uint32) {
    h in s.handlers && HasIp(s.handlers[h]) && s.handlers[h].ip == a
  }

  predicate Serves(s: Server, h: HandlerId, a: uint32) {
    AtPhase(s, h, Serving(a))
  }

  /**
   Every allocated address has a handler that will release it, every session key a handler that will
   delete it, and every entry holds a session whose own address is its key.
   */
  ghost predicate Covered(s: Server) {
    && WellFormed(s.pool)
    && (forall a | a in s.pool.taken :: exists h :: Holds(s, h, a))
    && (forall k | k in s.sessions :: exists h :: Serves(s, h, k))
    && (forall k | k in s.sessions :: s.sessions[k] in s.addressOf && s.addressOf[s.sessions[k]] == k)
    && (forall h | h in s.addressOf :: h in s.handlers && !s.handlers[h].Connecting? && !s.handlers[h].Replying?)
  }

  /** Changing the phase of one handler leaves all other holders and servers as they were. */
  lemma OthersUntouched(
    s: Server, h: HandlerId, p: Phase, pool: Pool,
    sessions: map<uint32, HandlerId>, addressOf: map<HandlerId, uint32>)
    ensures var t := s.(handlers := s.handlers[h := p], pool := pool, sessions := sessions, addressOf := addressOf);
            && (forall g, a | g != h :: Holds(t, g, a) <==> Holds(s, g, a))
            && (forall g, a | g != h :: Serves(t, g, a) <==> Serves(s, g, a))
            && (forall a :: Holds(t, h, a) <==> HasIp(p) && p.ip == a)
            && (forall a :: Serves(t, h, a) <==> p == Serving(a))
  {
  }

  lemma PoolStepFacts(p: Pool, num: uint32)
    requires WellFormed(p)
    ensures WellFormed(AllocateOn(p).0) && WellFormed(ReleaseOn(p, num).0)
    ensures AllocateOn(p).1.Some? ==> AllocateOn(p).1.value !in p.taken
    ensures AllocateOn(p).0.taken == p.taken + (if AllocateOn(p).1.Some? then {AllocateOn(p).1.value} else {})
    ensures ReleaseOn(p, num).0.taken == p.taken - {num}
  {
    if AllocateOn(p).1.Some? {
      AllocateGrantsFree(p);
    }
    ReleaseFreesTaken(p, num);
  }

  lemma CoveredHolds(s: Server, step: Step)
    requires Covered(s)
    ensures Covered(Apply(s, step))
  {
    if Enabled(s, step) {
      match step {
        case AllocateIp(h) =>
          AllocateKeepsCovered(s, h);
        case ReplyFails(h) =>
          ReleaseKeepsCovered(s, h);
        case ReleaseIp(h) =>
          ReleaseKeepsCovered(s, h);
        case RegisterSession(h) =>
          SessionKeepsCovered(s, step, h);
        case Unregister(h) =>
          SessionKeepsCovered(s, step, h);
        case Accept(h) =>
          EndsKeepCovered(s, step, h);
        case Reject(h) =>
          EndsKeepCovered(s, step, h);
        case _ =>
          SweepKeepsCovered(s, step);
      }
    }
  }

  lemma AllocateKeepsCovered(s: Server, h: HandlerId)
    requires Covered(s) && AtPhase(s, h, Connecting)
    ensures Covered(Take(s, AllocateIp(h)))
  {
    PoolStepFacts(s.pool, 0);
    hide Covered;
    hide AllocateOn;
    hide WellFormed;
    GrantKeepsCovered(s, h, AllocateOn(s.pool).0, AllocateOn(s.pool).1);
  }

  lemma GrantKeepsCovered(s: Server, h: HandlerId, pool: Pool, granted: Option<uint32>)
    requires Covered(s) && AtPhase(s, h, Connecting)
    requires WellFormed(pool)
    requires pool.taken == s.pool.taken + (if granted.Some? then {granted.value} else {})
    ensures var p := if granted.Some? then Replying(granted.value) else Done;
            Covered(s.(pool := pool, handlers := s.handlers[h := p]))
  {
    hide WellFormed;
    var p := if granted.Some? then Replying(granted.value) else Done;
    var t := s.(pool := pool, handlers := s.handlers[h := p]);
    OthersUntouched(s, h, p, pool, s.sessions, s.addressOf);
    assert granted.Some? ==> Holds(t, h, granted.value);
  }

  lemma ReleaseKeepsCovered(s: Server, h: HandlerId)
    requires Covered(s) && h in s.handlers && HasIp(s.handlers[h]) && !s.handlers[h].Serving?
    ensures Covered(s.(pool := ReleaseOn(s.pool, s.handlers[h].ip).0, handlers := s.handlers[h := Done]))
  {
    PoolStepFacts(s.pool, s.handlers[h].ip);
    hide Covered;
    hide ReleaseOn;
    hide WellFormed;
    FreeKeepsCovered(s, h, ReleaseOn(s.pool, s.handlers[h].ip).0);
  }

  lemma FreeKeepsCovered(s: Server, h: HandlerId, pool: Pool)
    requires Covered(s) && h in s.handlers && HasIp(s.handlers[h]) && !s.handlers[h].Serving?
    requires WellFormed(pool) && pool.taken == s.pool.taken - {s.handlers[h].ip}
    ensures Covered(s.(pool := pool, handlers := s.handlers[h := Done]))
  {
    hide WellFormed;
    OthersUntouched(s, h, Done, pool, s.sessions, s.addressOf);
  }

  lemma SessionKeepsCovered(s: Server, step: Step, h: HandlerId)
    requires Covered(s) && Enabled(s, step) && (step == RegisterSession(h) || step == Unregister(h))
    ensures Covered(Take(s, step))
  {
    hide WellFormed;
    var t := Take(s, step);
    OthersUntouched(s, h, t.handlers[h], t.pool, t.sessions, t.addressOf);
    assert Holds(t, h, s.handlers[h].ip);
    assert step.RegisterSession? ==> Serves(t, h, s.handlers[h].ip);
  }

  lemma EndsKeepCovered(s: Server, step: Step, h: HandlerId)
    requires Covered(s) && Enabled(s, step) && (step == Accept(h) || step == Reject(h))
    ensures Covered(Take(s, step))
  {
    hide WellFormed;
    var t := Take(s, step);
    OthersUntouched(s, h, t.handlers[h], t.pool, t.sessions, t.addressOf);
  }

  lemma SweepKeepsCovered(s: Server, step: Step)
    requires Covered(s) && Enabled(s, step)
    requires step.CloseBegins? || step.SweepRelease? || step.SweepDelete? || step.CloseEnds?
    ensures Covered(Take(s, step))
  {
    hide WellFormed, ReleaseOn;
    var t := Take(s, step);
    if step.SweepRelease? {
      var a := s.addressOf[s.sessions[step.key]];
      PoolStepFacts(s.pool, a);
      assert t.pool.taken == s.pool.taken - {a};
    }
    FewerIsCovered(s, t);
  }

  /** A sweep only takes away allocated addresses and session entries. */
  lemma FewerIsCovered(s: Server, t: Server)
    requires Covered(s) && WellFormed(t.pool) && t.pool.taken <= s.pool.taken
    requires t.handlers == s.handlers && t.addressOf == s.addressOf
    requires forall k | k in t.sessions :: k in s.sessions && t.sessions[k] == s.sessions[k]
    ensures Covered(t)
  {
    hide WellFormed;
    forall a | a in t.pool.taken
      ensures exists h :: Holds(t, h, a)
    {
      var h :| Holds(s, h, a);
      assert Holds(t, h, a);
    }
    forall k | k in t.sessions
      ensures exists h :: Serves(t, h, k)
    {
      var h :| Serves(s, h, k);
      assert Serves(t, h, k);
    }
  }

  lemma {:induction false} CoveredInEveryRun(base: uint32, maxClient: ClientCount, steps: seq<Step>)
    requires WellFormed(Fresh(base, maxClient))
    ensures Covered(Run(Start(base, maxClient), steps))
    decreases |steps|
  {
    hide Covered;
    if steps == [] {
      StartIsExclusive(base, maxClient);
    } else {
      CoveredInEveryRun(base, maxClient, steps[..|steps| - 1]);
      CoveredHolds(Run(Start(base, maxClient), steps[..|steps| - 1]), steps[|steps| - 1]);
    }
  }

  /**
   Whatever the interleaving, and even if `Close` makes handlers release addresses twice: when every
   handler is done, the pool and the session map are empty.
   */
  lemma NothingLeaks(base: uint32, maxClient: ClientCount, steps: seq<Step>)
    requires WellFormed(Fresh(base, maxClient))
    requires var s := Run(Start(base, maxClient), steps);
             forall h | h in s.handlers :: s.handlers[h].Done?
    ensures var s := Run(Start(base, maxClient), steps);
            s.pool.taken == {} && s.sessions == map[]
  {
    CoveredInEveryRun(base, maxClient, steps);
  }

  // ---------- Until Close releases an address ----------

  /**
   Before `Close` releases anything the handlers, the pool and the session map agree exactly: no two
   handlers hold one address, the allocated addresses are those held, and the entries of the map are
   the registered handlers under their own addresses.
   */
  ghost predicate Exclusive(s: Server) {
    && Covered(s)
    && (forall h, a | Holds(s, h, a) :: a in s.pool.taken)
    && (forall g, h, a | Holds(s, g, a) && Holds(s, h, a) :: g == h)
    && (forall h, k :: Serves(s, h, k) <==> k in s.sessions && s.sessions[k] == h)
    && (s.sweep.Sweeping? ==> s.sweep.pending.None?)
  }

  lemma StartIsExclusive(base: uint32, maxClient: ClientCount)
    requires WellFormed(Fresh(base, maxClient))
    ensures Exclusive(Start(base, maxClient))
  {
  }

  lemma ExclusiveHolds(s: Server, step: Step)
    requires Exclusive(s) && !(Enabled(s, step) && step.SweepRelease?)
    ensures Exclusive(Apply(s, step))
  {
    CoveredHolds(s, step);
    hide AllocateOn;
    hide ReleaseOn;
    hide WellFormed;
    hide Covered;
    if Enabled(s, step) {
      var t := Take(s, step);
      match step {
        case Accept(h) =>
          OthersUntouched(s, h, Connecting, t.pool, t.sessions, t.addressOf);
        case Reject(h) =>
          OthersUntouched(s, h, Done, t.pool, t.sessions, t.addressOf);
        case AllocateIp(h) =>
          AllocateKeepsExclusive(s, h);
        case RegisterSession(h) =>
          RegisterKeepsExclusive(s, h);
        case Unregister(h) =>
          UnregisterKeepsExclusive(s, h);
        case ReplyFails(h) =>
          ReleaseKeepsExclusive(s, h);
        case ReleaseIp(h) =>
          ReleaseKeepsExclusive(s, h);
        case SweepRelease(_) =>
        case SweepDelete =>
        case _ =>
          assert forall h, a :: Holds(t, h, a) == Holds(s, h, a) && Serves(t, h, a) == Serves(s, h, a);
      }
    }
  }

  lemma AllocateKeepsExclusive(s: Server, h: HandlerId)
    requires Exclusive(s) && AtPhase(s, h, Connecting)
    ensures var t := Take(s, AllocateIp(h));
            Covered(t) ==> Exclusive(t)
  {
    PoolStepFacts(s.pool, 0);
    hide AllocateOn;
    hide Exclusive;
    var (pool, granted) := AllocateOn(s.pool);
    GrantKeepsExclusive(s, h, pool, granted);
  }

  lemma GrantKeepsExclusive(s: Server, h: HandlerId, pool: Pool, granted: Option<uint32>)
    requires Exclusive(s) && AtPhase(s, h, Connecting)
    requires granted.Some? ==> granted.value !in s.pool.taken
    requires pool.taken == s.pool.taken + (if granted.Some? then {granted.value} else {})
    ensures var p := if granted.Some? then Replying(granted.value) else Done;
            var t := s.(pool := pool, handlers := s.handlers[h := p]);
            Covered(t) ==> Exclusive(t)
  {
    hide Covered;
    var p := if granted.Some? then Replying(granted.value) else Done;
    OthersUntouched(s, h, p, pool, s.sessions, s.addressOf);
    var t := s.(pool := pool, handlers := s.handlers[h := p]);
    forall g, a | Holds(t, g, a)
      ensures a in t.pool.taken
    {
      assert g != h ==> Holds(s, g, a);
    }
    forall f, g, a | Holds(t, f, a) && Holds(t, g, a)
      ensures f == g
    {
      assert f != h ==> Holds(s, f, a);
      assert g != h ==> Holds(s, g, a);
    }
    forall g, k
      ensures Serves(t, g, k) <==> k in t.sessions && t.sessions[k] == g
    {
      assert Serves(s, g, k) <==> k in s.sessions && s.sessions[k] == g;
    }
  }

  lemma RegisterKeepsExclusive(s: Server, h: HandlerId)
    requires Exclusive(s) && Enabled(s, RegisterSession(h))
    ensures var t := Take(s, RegisterSession(h));
            Covered(t) ==> Exclusive(t)
  {
    hide Covered;
    var ip, t := s.handlers[h].ip, Take(s, RegisterSession(h));
    RegisterNeverOverwrites(s, h);
    assert forall g, a :: Holds(t, g, a) == Holds(s, g, a);
    forall g, k
      ensures Serves(t, g, k) <==> k in t.sessions && t.sessions[k] == g
    {
      assert Serves(s, g, k) <==> k in s.sessions && s.sessions[k] == g;
    }
  }

  lemma UnregisterKeepsExclusive(s: Server, h: HandlerId)
    requires Exclusive(s) && Enabled(s, Unregister(h))
    ensures var t := Take(s, Unregister(h));
            Covered(t) ==> Exclusive(t)
  {
    hide Covered;
    var ip, t := s.handlers[h].ip, Take(s, Unregister(h));
    assert Serves(s, h, ip);
    assert forall g, a :: Holds(t, g, a) == Holds(s, g, a);
    forall g, k
      ensures Serves(t, g, k) <==> k in t.sessions && t.sessions[k] == g
    {
      assert Serves(s, g, k) <==> k in s.sessions && s.sessions[k] == g;
    }
  }

  lemma ReleaseKeepsExclusive(s: Server, h: HandlerId)
    requires Exclusive(s) && h in s.handlers && (s.handlers[h].Replying? || s.handlers[h].Leaving?)
    ensures var t := s.(pool := ReleaseOn(s.pool, s.handlers[h].ip).0, handlers := s.handlers[h := Done]);
            Covered(t) ==> Exclusive(t)
  {
    var ip := s.handlers[h].ip;
    PoolStepFacts(s.pool, ip);
    hide AllocateOn;
    hide ReleaseOn;
    hide Covered;
    OthersUntouched(s, h, Done, ReleaseOn(s.pool, ip).0, s.sessions, s.addressOf);
    assert Holds(s, h, ip);
    assert forall k :: !Serves(s, h, k);
  }

  /** In every interleaving in which no `Close` has released an address, `Exclusive` holds. */
  lemma {:induction false} ExclusiveUntilSwept(base: uint32, maxClient: ClientCount, steps: seq<Step>)
    requires WellFormed(Fresh(base, maxClient))
    requires !Run(Start(base, maxClient), steps).swept
    ensures Exclusive(Run(Start(base, maxClient), steps))
    decreases |steps|
  {
    hide Exclusive;
    if steps == [] {
      StartIsExclusive(base, maxClient);
    } else {
      ExclusiveUntilSwept(base, maxClient, steps[..|steps| - 1]);
      ExclusiveHolds(Run(Start(base, maxClient), steps[..|steps| - 1]), steps[|steps| - 1]);
    }
  }

  /** Registering a session never overwrites another one. */
  lemma RegisterNeverOverwrites(s: Server, h: HandlerId)
    requires Exclusive(s) && h in s.handlers && s.handlers[h].Replying?
    ensures s.handlers[h].ip !in s.sessions
  {
    var ip := s.handlers[h].ip;
    if ip in s.sessions {
      var g := s.sessions[ip];
      assert Serves(s, g, ip);
      assert Holds(s, g, ip) && Holds(s, h, ip);
    }
  }

  /** An address about to be released has no session entry: the deletion came first. */
  lemma DeletedBeforeReleased(s: Server, h: HandlerId)
    requires Exclusive(s) && h in s.handlers && s.handlers[h].Leaving?
    ensures s.handlers[h].ip !in s.sessions && s.handlers[h].ip in s.pool.taken
  {
    var ip := s.handlers[h].ip;
    assert Holds(s, h, ip);
    if ip in s.sessions {
      var g := s.sessions[ip];
      assert Serves(s, g, ip);
      assert Holds(s, g, ip);
    }
  }

  ghost function Holders(s: Server): set<HandlerId> {
    set h | h in s.handlers && HasIp(s.handlers[h])
  }

  lemma {:induction false} InjectiveImage(s: Server, hs: set<HandlerId>, addresses: set<uint32>)
    requires forall h | h in hs :: h in s.handlers && HasIp(s.handlers[h])
    requires forall g, h, a | Holds(s, g, a) && Holds(s, h, a) :: g == h
    requires forall a :: a in addresses <==> exists h :: h in hs && Holds(s, h, a)
    ensures |hs| == |addresses|
    decreases hs
  {
    if hs == {} {
      assert addresses == {};
    } else {
      var h :| h in hs;
      var a := s.handlers[h].ip;
      assert Holds(s, h, a) && forall b :: Holds(s, h, b) ==> b == a;
      hide Holds, HasIp;
      var rest := addresses - {a};
      forall b
        ensures b in rest <==> exists g :: g in hs - {h} && Holds(s, g, b)
      {
        if b in rest {
          var g :| g in hs && Holds(s, g, b);
          assert g in hs - {h};
        }
        if g :| g in hs - {h} && Holds(s, g, b) {
          assert b in addresses;
        }
      }
      InjectiveImage(s, hs - {h}, rest);
      assert addresses == rest + {a};
    }
  }

  /** The allocated count is the number of handlers between allocation and release. */
  lemma HoldersMatchPool(s: Server)
    requires Exclusive(s)
    ensures |Holders(s)| == |s.pool.taken|
  {
    forall a
      ensures a in s.pool.taken <==> exists h :: h in Holders(s) && Holds(s, h, a)
    {
      if a in s.pool.taken {
        var h :| Holds(s, h, a);
        assert h in Holders(s);
      }
    }
    InjectiveImage(s, Holders(s), s.pool.taken);
  }

  /**
   A client is turned away for want of addresses only while at least maxClient - 1 handlers hold one,
   and while maxClient hold one it always is.
   */
  lemma RefusedOnlyWhenNearlyFull(s: Server, h: HandlerId)
    requires Exclusive(s) && AtPhase(s, h, Connecting)
    ensures Take(s, AllocateIp(h)).handlers[h].Done? ==> |Holders(s)| >= s.pool.maxClient - 1
    ensures |Holders(s)| >= s.pool.maxClient ==> Take(s, AllocateIp(h)).handlers[h].Done?
  {
    HoldersMatchPool(s);
    if AllocateOn(s.pool).1.None? {
      FailureLeavesAtMostOneFree(s.pool);
    }
  }

  // ---------- After Close has released an address ----------

  /** Two handlers hold one address. */
  ghost predicate Clash(s: Server) {
    exists g, h, a :: g != h && Holds(s, g, a) && Holds(s, h, a)
  }

  ghost predicate NoMoreReleases(steps: seq<Step>) {
    forall k | 0 <= k < |steps| :: !steps[k].SweepRelease?
  }

  /**
   Whichever address `Close` releases, and in whatever state, the next client to connect is given it
   while the handler it belonged to still holds it.
   */
  lemma ReleasedAddressIsSharedNext(s: Server, key: uint32, h: HandlerId)
    requires Exclusive(s) && Enabled(s, SweepRelease(key)) && h !in s.handlers
    ensures var t := Run(Apply(s, SweepRelease(key)), [Accept(h), AllocateIp(h)]);
            var g := s.sessions[key];
            g != h && Holds(t, g, key) && Holds(t, h, key)
  {
    var g := s.sessions[key];
    assert Serves(s, g, key);
    assert Holds(s, g, key);
    ReleaseFreesTaken(s.pool, key);
    ReleaseThenAllocate(s.pool, key);
    hide AllocateOn, ReleaseOn, WellFormed, Covered;
    var t := Apply(s, SweepRelease(key));
    RunOne(Apply(t, Accept(h)), AllocateIp(h));
    RunOne(t, Accept(h));
    RunConcat(t, [Accept(h)], [AllocateIp(h)]);
    assert [Accept(h)] + [AllocateIp(h)] == [Accept(h), AllocateIp(h)];
  }

  lemma {:induction false} ExclusiveWithoutReleases(s: Server, steps: seq<Step>)
    requires Exclusive(s) && NoMoreReleases(steps)
    ensures Exclusive(Run(s, steps))
    decreases |steps|
  {
    hide Exclusive;
    if steps != [] {
      ExclusiveWithoutReleases(s, steps[..|steps| - 1]);
      ExclusiveHolds(Run(s, steps[..|steps| - 1]), steps[|steps| - 1]);
    }
  }

  lemma {:induction false} SomeNewHandler(hs: set<HandlerId>) returns (h: HandlerId)
    ensures forall g | g in hs :: g < h
    decreases hs
  {
    if hs == {} {
      h := 0;
    } else {
      var g :| g in hs;
      var rest := SomeNewHandler(hs - {g});
      h := if g < rest then rest else g + 1;
      assert forall other | other in hs :: other == g || other in hs - {g};
    }
  }

  /**
   Exactly the releases of `Close` end exclusivity: after an enabled step some continuation, in which
   `Close` releases nothing more, makes two handlers hold one address if and only if that step is one.
   */
  lemma ExclusivityEndsIff(s: Server, step: Step)
    requires Exclusive(s) && Enabled(s, step)
    ensures (exists steps :: NoMoreReleases(steps) && Clash(Run(Apply(s, step), steps))) <==> step.SweepRelease?
  {
    if step.SweepRelease? {
      var h := SomeNewHandler(s.handlers.Keys);
      ReleasedAddressIsSharedNext(s, step.key, h);
      assert NoMoreReleases([Accept(h), AllocateIp(h)]);
    } else {
      ExclusiveHolds(s, step);
      forall steps | NoMoreReleases(steps)
        ensures !Clash(Run(Apply(s, step), steps))
      {
        ExclusiveWithoutReleases(Apply(s, step), steps);
      }
    }
  }

  /** A shutdown in which handler 1 is handed the address that handler 0 still believes is its own. */
  function ClashingSteps(a: uint32): seq<Step> {
    [Accept(0), Accept(1), AllocateIp(0), RegisterSession(0), CloseBegins, SweepRelease(a), AllocateIp(1)]
  }

  /** Such a state is reachable from the empty server, for every pool. */
  lemma CloseEndsExclusivity(base: uint32, maxClient: ClientCount)
    requires WellFormed(Fresh(base, maxClient))
    ensures var s := Run(Start(base, maxClient), ClashingSteps(base + 2));
            s.swept && Holds(s, 0, base + 2) && Holds(s, 1, base + 2)
  {
    var a: uint32 := base + 2;
    var p := Fresh(base, maxClient);
    AllocateGrantsFirstFromHint(p, a);
    AllocateThenRelease(p);
    AllocateGrantsFree(p);
    ReleaseThenAllocate(AllocateOn(p).0, a);
    hide AllocateOn;
    hide ReleaseOn;
    hide WellFormed;
    ClashFrom(Start(base, maxClient), a);
  }

  /** The seven states the clashing run goes through. */
  lemma ClashFrom(s: Server, a: uint32)
    requires s == Server(s.pool, map[], map[], map[], NotSweeping, false)
    requires AllocateOn(s.pool).1 == Some(a)
    requires AllocateOn(ReleaseOn(AllocateOn(s.pool).0, a).0).1 == Some(a)
    ensures var t := Run(s, ClashingSteps(a));
            t.swept && Holds(t, 0, a) && Holds(t, 1, a)
  {
    hide AllocateOn;
    hide ReleaseOn;
    var s2 := s.(handlers := map[0 := Connecting, 1 := Connecting]);
    assert Apply(Apply(s, Accept(0)), Accept(1)).handlers == s2.handlers;
    var s4 := Server(
      AllocateOn(s.pool).0, map[a := 0], map[0 := Serving(a), 1 := Connecting], map[0 := a], NotSweeping, false);
    var s3 := Apply(s2, AllocateIp(0));
    assert s3.handlers == map[0 := Replying(a), 1 := Connecting];
    assert Apply(s3, RegisterSession(0)).handlers == s4.handlers;
    ClashAtShutdown(s4, a);
    RunSeven(s, Accept(0), Accept(1), AllocateIp(0), RegisterSession(0), CloseBegins, SweepRelease(a), AllocateIp(1));
  }

  lemma ClashAtShutdown(s: Server, a: uint32)
    requires s == Server(s.pool, map[a := 0], map[0 := Serving(a), 1 := Connecting], map[0 := a], NotSweeping, false)
    requires AllocateOn(ReleaseOn(s.pool, a).0).1 == Some(a)
    ensures var t := Apply(Apply(Apply(s, CloseBegins), SweepRelease(a)), AllocateIp(1));
            t.swept && Holds(t, 0, a) && Holds(t, 1, a)
  {
    hide AllocateOn;
    hide ReleaseOn;
  }

  lemma RunSeven(s: Server, a: Step, b: Step, c: Step, d: Step, e: Step, f: Step, g: Step)
    ensures Run(s, [a, b, c, d, e, f, g])
         == Apply(Apply(Apply(Apply(Apply(Apply(Apply(s, a), b), c), d), e), f), g)
  {
    hide Apply;
    var steps := [a, b, c, d, e, f, g];
    assert Run(s, steps[..0]) == s;
    RunPrefix(s, steps, 0);
    RunPrefix(s, steps, 1);
    RunPrefix(s, steps, 2);
    RunPrefix(s, steps, 3);
    RunPrefix(s, steps, 4);
    RunPrefix(s, steps, 5);
    RunPrefix(s, steps, 6);
    assert steps[..7] == steps;
  }

  lemma RunPrefix(s: Server, steps: seq<Step>, n: nat)
    requires n < |steps|
    ensures Run(s, steps[..n + 1]) == Apply(Run(s, steps[..n]), steps[n])
  {
    assert steps[..n + 1][..n] == steps[..n];
  }

  // ---------- Progress ----------

  function StepsLeft(p: Phase): nat {
    match p
    case Connecting => 4
    case Replying(_) => 3
    case Serving(_) => 2
    case Leaving(_) => 1
    case Done => 0
  }

  predicate IsStepOf(step: Step, h: HandlerId) {
    match step
    case Reject(g) => g == h
    case AllocateIp(g) => g == h
    case ReplyFails(g) => g == h
    case RegisterSession(g) => g == h
    case Unregister(g) => g == h
    case ReleaseIp(g) => g == h
    case _ => false
  }

  /** How many steps of a run were taken by handler `h`. */
  function StepsTaken(s: Server, steps: seq<Step>, h: HandlerId): nat {
    if steps == [] then 0
    else
      var n := |steps| - 1;
      StepsTaken(s, steps[..n], h) + if IsStepOf(steps[n], h) && Enabled(Run(s, steps[..n]), steps[n]) then 1 else 0
  }

  lemma StepMakesProgress(s: Server, step: Step, h: HandlerId)
    requires h in s.handlers
    ensures var t := Apply(s, step);
            && h in t.handlers
            && (if IsStepOf(step, h) && Enabled(s, step) then StepsLeft(t.handlers[h]) < StepsLeft(s.handlers[h])
                else t.handlers[h] == s.handlers[h])
  {
  }

  /** In every run a handler takes at most as many steps as its phase leaves it, never more than four. */
  lemma {:induction false} HandlersFinish(s: Server, steps: seq<Step>, h: HandlerId)
    requires h in s.handlers
    ensures h in Run(s, steps).handlers
    ensures StepsTaken(s, steps, h) + StepsLeft(Run(s, steps).handlers[h]) <= StepsLeft(s.handlers[h]) <= 4
    decreases |steps|
  {
    if steps != [] {
      HandlersFinish(s, steps[..|steps| - 1], h);
      StepMakesProgress(Run(s, steps[..|steps| - 1]), steps[|steps| - 1], h);
    }
  }

  /** The step a handler takes next when nothing goes wrong. */
  function NextStep(h: HandlerId, p: Phase): Step
    requires !p.Done?
  {
    match p
    case Connecting => AllocateIp(h)
    case Replying(_) => RegisterSession(h)
    case Serving(_) => Unregister(h)
    case Leaving(_) => ReleaseIp(h)
  }

  /** Outside a sweep no unfinished handler is blocked; during one, the sweep itself can go on. */
  lemma NobodyIsStuck(s: Server, h: HandlerId)
    requires Covered(s) && h in s.handlers && !s.handlers[h].Done?
    ensures s.sweep.NotSweeping? ==> Enabled(s, NextStep(h, s.handlers[h]))
    ensures s.sweep.Sweeping? ==> Enabled(s, SweepDelete) || Enabled(s, CloseEnds)
                                  || exists key :: Enabled(s, SweepRelease(key))
  {
    if s.sweep == Sweeping(None) && s.sessions != map[] {
      var key :| key in s.sessions;
      assert Enabled(s, SweepRelease(key));
    }
  }

  lemma {:induction false} RunConcat(s: Server, a: seq<Step>, b: seq<Step>)
    ensures Run(s, a + b) == Run(Run(s, a), b)
    decreases |b|
  {
    if b == [] {
      assert a + b == a;
    } else {
      assert (a + b)[..|a + b| - 1] == a + b[..|b| - 1];
      RunConcat(s, a, b[..|b| - 1]);
    }
  }

  lemma RunOne(s: Server, step: Step)
    ensures Run(s, [step]) == Apply(s, step)
  {
    assert [step][..0] == [];
  }

  /** The handlers that are not done yet. */
  ghost function Unfinished(s: Server): set<HandlerId> {
    set h | h in s.handlers && !s.handlers[h].Done?
  }

  /** Some continuation brings every handler to its end and the sweep, if any, to its own. */
  ghost predicate CanFinish(s: Server) {
    exists steps :: Unfinished(Run(s, steps)) == {} && Run(s, steps).sweep.NotSweeping?
  }

  lemma FinishAfter(s: Server, step: Step)
    requires CanFinish(Apply(s, step))
    ensures CanFinish(s)
  {
    var steps :| Unfinished(Run(Apply(s, step), steps)) == {} && Run(Apply(s, step), steps).sweep.NotSweeping?;
    RunOne(s, step);
    RunConcat(s, [step], steps);
    assert Unfinished(Run(s, [step] + steps)) == {};
  }

  /** A handler's next step changes no other handler and no sweep. */
  lemma NextStepIsLocal(s: Server, h: HandlerId)
    requires s.sweep.NotSweeping? && h in Unfinished(s)
    ensures var t := Apply(s, NextStep(h, s.handlers[h]));
            && t.sweep.NotSweeping? && h in t.handlers
            && StepsLeft(t.handlers[h]) < StepsLeft(s.handlers[h])
            && Unfinished(t) == Unfinished(s) - (if t.handlers[h].Done? then {h} else {})
  {
    hide AllocateOn;
    hide ReleaseOn;
  }

  lemma {:induction false} HandlersCanFinish(s: Server)
    requires s.sweep.NotSweeping?
    ensures CanFinish(s)
    decreases Unfinished(s), 5
  {
    if Unfinished(s) == {} {
      assert Unfinished(Run(s, [])) == {};
    } else {
      var h :| h in Unfinished(s);
      HandlerCanFinish(s, h);
    }
  }

  lemma {:induction false} HandlerCanFinish(s: Server, h: HandlerId)
    requires s.sweep.NotSweeping? && h in Unfinished(s)
    ensures CanFinish(s)
    decreases Unfinished(s), StepsLeft(s.handlers[h])
  {
    hide CanFinish;
    hide Apply;
    var t := Apply(s, NextStep(h, s.handlers[h]));
    NextStepIsLocal(s, h);
    if t.handlers[h].Done? {
      HandlersCanFinish(t);
    } else {
      HandlerCanFinish(t, h);
    }
    FinishAfter(s, NextStep(h, s.handlers[h]));
  }

  lemma {:induction false} SweepCanFinish(s: Server)
    requires Covered(s) && s.sweep.Sweeping?
    ensures CanFinish(s)
    decreases s.sessions.Keys, s.sweep.pending.Some?
  {
    hide CanFinish;
    hide Covered;
    if s.sweep.pending.Some? {
      CoveredHolds(s, SweepDelete);
      SweepCanFinish(Apply(s, SweepDelete));
      FinishAfter(s, SweepDelete);
    } else if s.sessions == map[] {
      HandlersCanFinish(Apply(s, CloseEnds));
      FinishAfter(s, CloseEnds);
    } else {
      var key :| key in s.sessions;
      EntryCanBeSwept(s, key);
      var t := Apply(s, SweepRelease(key));
      CoveredHolds(s, SweepRelease(key));
      CoveredHolds(t, SweepDelete);
      assert Apply(t, SweepDelete).sessions == s.sessions - {key};
      SweepCanFinish(Apply(t, SweepDelete));
      FinishAfter(t, SweepDelete);
      FinishAfter(s, SweepRelease(key));
    }
  }

  lemma EntryCanBeSwept(s: Server, key: uint32)
    requires Covered(s) && s.sweep == Sweeping(None) && key in s.sessions
    ensures Enabled(s, SweepRelease(key))
  {
  }

  /**
   No interleaving deadlocks: from every reachable state some continuation ends all handlers and any
   sweep, and then no address is allocated and no session is left.
   */
  lemma EverythingCanEnd(base: uint32, maxClient: ClientCount, steps: seq<Step>)
    requires WellFormed(Fresh(base, maxClient))
    ensures exists more :: var t := Run(Start(base, maxClient), steps + more);
                           Unfinished(t) == {} && t.sweep.NotSweeping? && t.pool.taken == {} && t.sessions == map[]
  {
    var s := Run(Start(base, maxClient), steps);
    CoveredInEveryRun(base, maxClient, steps);
    if s.sweep.Sweeping? {
      SweepCanFinish(s);
    } else {
      HandlersCanFinish(s);
    }
    var more :| Unfinished(Run(s, more)) == {} && Run(s, more).sweep.NotSweeping?;
    RunConcat(Start(base, maxClient), steps, more);
    var t := Run(Start(base, maxClient), steps + more);
    assert forall h | h in t.handlers :: t.handlers[h].Done? by {
      assert forall h | h in t.handlers && !t.handlers[h].Done? :: h in Unfinished(t);
    }
    NothingLeaks(base, maxClient, steps + more);
  }
}
