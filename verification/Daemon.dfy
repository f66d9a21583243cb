/**
 The server of server/daemon/daemon.go as objects: the critical sections of `handleConnection` and
 `Close`, each proved to be a step of Sessions, and one round of each packet loop, whose work on a
 session is proved to be three steps of Relay.
 */
module Daemon {
  import opened Words
  import opened Wrappers
  import opened Collections
  import opened Addresses
  import opened IpPool
  import opened PoolProperties
  import opened RateLimit
  import opened Packet
  import opened Crypto
  import opened Conn
  import opened Sessions
  import opened Relay

  class ClientSession {
    ghost const id: HandlerId
    const assignedIP: IP
    const upLimiter: TokenBucket?
    const downLimiter: TokenBucket?
    var clientAddr: Option<Addr>

    ghost function Limiters(): set<object> {
      (if upLimiter == null then {} else {upLimiter}) + (if downLimiter == null then {} else {downLimiter})
    }

    ghost function State(): Client
      reads this, Limiters()
    {
      Client(clientAddr,
             if upLimiter == null then None else Some(upLimiter.State()),
             if downLimiter == null then None else Some(downLimiter.State()))
    }

    ghost predicate Valid() {
      upLimiter != null ==> upLimiter != downLimiter
    }

    /** Limited to this many Mbps from time `now` on, by a full limiter for each direction, or not at all. */
    ghost predicate LimitedTo(rateLimit: int, now: real)
      reads Limiters()
    {
      if rateLimit <= 0 then upLimiter == null && downLimiter == null
      else
        && upLimiter != null && downLimiter != null && upLimiter != downLimiter
        && upLimiter.rate == upLimiter.capacity == upLimiter.tokens == 125000.0 * rateLimit as real
        && downLimiter.rate == downLimiter.capacity == downLimiter.tokens == 125000.0 * rateLimit as real
        && upLimiter.lastUpdate == downLimiter.lastUpdate == now
    }

    /** A session of a user with this rate limit, in Mbps; limited only if it is positive. */
    constructor (ghost id: HandlerId, assignedIP: IP, rateLimit: int, now: real)
      ensures this.id == id && this.assignedIP == assignedIP
      ensures Valid() && fresh(Limiters())
      ensures clientAddr == None && LimitedTo(rateLimit, now)
      ensures State() == Client(None, NewLimit(rateLimit, now), NewLimit(rateLimit, now))
    {
      this.id, this.assignedIP, clientAddr := id, assignedIP, None;
      if rateLimit > 0 {
        var up := new TokenBucket(rateLimit, now);
        var down := new TokenBucket(rateLimit, now);
        upLimiter, downLimiter := up, down;
      } else {
        upLimiter, downLimiter := null, null;
      }
    }

    /**
     What `dataReadLoop` does with a packet of this session: ask the limiter, note where the packet
     came from, and hand it to the TUN device if there is one.
     */
    method Upstream(pkt: seq<uint8>, from: Addr, now: real, hasTun: bool) returns (written: bool)
      requires Valid()
      modifies this`clientAddr, upLimiter
      ensures (State(), written) == UpstreamOn(old(State()), |pkt|, from, now, hasTun)
      ensures var ok := upLimiter == null || AllowOn(old(upLimiter.State()), |pkt|, now).1;
              written == (ok && hasTun) && clientAddr == if ok then Some(from) else old(clientAddr)
    {
      if upLimiter != null {
        var ok := upLimiter.Allow(|pkt|, now);
        if !ok {
          return false;
        }
      }
      clientAddr := Some(from);
      return hasTun;
    }

    /** What `tunReadLoop` does with a packet for this session: the address to send it to, if any. */
    method Downstream(pkt: seq<uint8>, now: real) returns (to: Option<Addr>)
      requires Valid()
      modifies downLimiter
      ensures (State(), to) == DownstreamOn(old(State()), |pkt|, now)
      ensures var ok := downLimiter == null || AllowOn(old(downLimiter.State()), |pkt|, now).1;
              to == if ok then clientAddr else None
    {
      if downLimiter != null {
        var ok := downLimiter.Allow(|pkt|, now);
        if !ok {
          return None;
        }
      }
      return clientAddr;
    }
  }

  function UpstreamOn(c: Client, n: nat, from: Addr, now: real, hasTun: bool): (Client, bool) {
    var (up, ok) := Ask(c.up, n, now);
    (c.(up := up, addr := if ok then Some(from) else c.addr), ok && hasTun)
  }

  function DownstreamOn(c: Client, n: nat, now: real): (Client, Option<Addr>) {
    var (down, ok) := Ask(c.down, n, now);
    (c.(down := down), if ok then c.addr else None)
  }

  /** The session a packet from the TUN device is for. */
  ghost function Addressee(pkt: seq<uint8>, sessions: map<uint32, ClientSession>): Option<ClientSession> {
    if DstIPUint32(pkt).Ok? && DstIPUint32(pkt).value in sessions then Some(sessions[DstIPUint32(pkt).value]) else None
  }

  /**
   Undisturbed, the steps of the data loop after a lookup do to the session what `Upstream` does, and
   record exactly the question, the sender it stores and the packet it hands to TUN.
   */
  lemma UpstreamIsThreeSteps(r: RelayState)
    requires r.up.UpFound? && r.up.sid in r.clients
    ensures var (sid, pkt, from) := (r.up.sid, r.up.pkt, r.up.from);
            var asked := AskEvents(r.clients[sid].up, Up, sid, |pkt|, r.clock);
            var heard := if Ask(r.clients[sid].up, |pkt|, r.clock).1 then [Heard(sid, pkt, from)] else [];
            var (c, written) := UpstreamOn(r.clients[sid], |pkt|, from, r.clock, r.hasTun);
            Do(Do(Do(r, AdmitUp), StoreUp), WriteUp)
            == r.(up := UpIdle, clients := r.clients[sid := c],
                  log := r.log + asked + heard + if written then [Output(Up, sid, pkt, None, r.clock)] else [])
  {
    hide AllowOn;
  }

  /**
   Undisturbed, the steps of the TUN loop after a lookup do to the session what `Downstream` does, and
   send exactly one packet, to the address it answers, if it answers one.
   */
  lemma DownstreamIsThreeSteps(r: RelayState)
    requires r.down.DownFound? && r.down.sid in r.clients
    ensures var (sid, pkt) := (r.down.sid, r.down.pkt);
            var asked := AskEvents(r.clients[sid].down, Down, sid, |pkt|, r.clock);
            var (c, to) := DownstreamOn(r.clients[sid], |pkt|, r.clock);
            Do(Do(Do(r, AdmitDown), LoadDown), SendDown)
            == r.(down := DownIdle, clients := r.clients[sid := c],
                  log := r.log + asked + if to.Some? then [Output(Down, sid, pkt, to, r.clock)] else [])
  {
    hide AllowOn;
  }

  /** The handler behind each session entry. */
  ghost function Owners(sessions: map<uint32, ClientSession>): (owners: map<uint32, HandlerId>)
    ensures owners.Keys == sessions.Keys
  {
    map k | k in sessions :: sessions[k].id
  }

  lemma OwnersWith(sessions: map<uint32, ClientSession>, key: uint32, sess: ClientSession)
    ensures Owners(sessions[key := sess]) == Owners(sessions)[key := sess.id]
  {
  }

  lemma OwnersWithout(sessions: map<uint32, ClientSession>, key: uint32)
    ensures Owners(sessions - {key}) == Owners(sessions) - {key}
  {
  }

  /** No limiter serves two sessions or two directions. */
  ghost predicate Separate(sessions: map<uint32, ClientSession>) {
    && (forall k | k in sessions :: sessions[k].Valid())
    && (forall j, k | j in sessions && k in sessions && sessions[j] != sessions[k] ::
          sessions[j].Limiters() !! sessions[k].Limiters())
  }

  lemma SeparateWith(sessions: map<uint32, ClientSession>, key: uint32, sess: ClientSession)
    requires Separate(sessions) && sess.Valid()
    requires forall k | k in sessions :: sessions[k].Limiters() !! sess.Limiters()
    ensures Separate(sessions[key := sess])
  {
  }

  lemma SeparateWithout(sessions: map<uint32, ClientSession>, key: uint32)
    requires Separate(sessions)
    ensures Separate(sessions - {key})
  {
  }

  /** The model records the address of every session object. */
  ghost predicate Recorded(sessions: map<uint32, ClientSession>, addressOf: map<HandlerId, uint32>) {
    forall k | k in sessions ::
      && |sessions[k].assignedIP| == 4
      && sessions[k].id in addressOf && addressOf[sessions[k].id] == IpToUint32(sessions[k].assignedIP)
  }

  lemma RecordedWith(
    sessions: map<uint32, ClientSession>, addressOf: map<HandlerId, uint32>, key: uint32, sess: ClientSession)
    requires Recorded(sessions, addressOf) && |sess.assignedIP| == 4 && sess.id !in addressOf
    ensures Recorded(sessions[key := sess], addressOf[sess.id := IpToUint32(sess.assignedIP)])
  {
  }

  lemma RecordedWithout(sessions: map<uint32, ClientSession>, addressOf: map<HandlerId, uint32>, key: uint32)
    requires Recorded(sessions, addressOf)
    ensures Recorded(sessions - {key}, addressOf)
  {
  }

  /** What a handler is granted has no session entry, and releasing it undoes the allocation. */
  lemma GrantCanBeUndone(s: Server)
    requires Exclusive(s)
    ensures AllocateOn(s.pool).1.None? ==> AllocateOn(s.pool).0.taken == s.pool.taken
    ensures AllocateOn(s.pool).1.Some? ==>
              var (q, ip) := (AllocateOn(s.pool).0, AllocateOn(s.pool).1.value);
              && ip in Free(s.pool) && ip !in s.sessions
              && ReleaseOn(q, ip).0.taken == s.pool.taken
  {
    if AllocateOn(s.pool).1.Some? {
      AllocateGrantsFree(s.pool);
      AllocateThenRelease(s.pool);
      FreeAddressHasNoSession(s, AllocateOn(s.pool).1.value);
    }
  }

  /** A step of a handler keeps the server exclusive. */
  lemma HandlerStepKeeps(s: Server, step: Step, t: Server)
    requires Exclusive(s) && Enabled(s, step) && !step.SweepRelease? && t == Take(s, step)
    ensures Exclusive(t)
  {
    ExclusiveHolds(s, step);
  }

  lemma AcceptKeeps(s: Server, h: HandlerId)
    requires Exclusive(s) && h !in s.handlers
    ensures Exclusive(s.(handlers := s.handlers[h := Connecting]))
  {
    HandlerStepKeeps(s, Accept(h), s.(handlers := s.handlers[h := Connecting]));
  }

  lemma RejectKeeps(s: Server, h: HandlerId)
    requires Exclusive(s) && AtPhase(s, h, Connecting)
    ensures Exclusive(s.(handlers := s.handlers[h := Done]))
  {
    HandlerStepKeeps(s, Reject(h), s.(handlers := s.handlers[h := Done]));
  }

  lemma CleanupKeeps(s: Server, h: HandlerId, ip: uint32)
    requires Exclusive(s) && AtPhase(s, h, Serving(ip)) && s.sweep.NotSweeping?
    ensures Exclusive(Take(Take(s, Sessions.Unregister(h)), ReleaseIp(h)))
  {
    var t := Take(s, Sessions.Unregister(h));
    HandlerStepKeeps(s, Sessions.Unregister(h), t);
    HandlerStepKeeps(t, ReleaseIp(h), Take(t, ReleaseIp(h)));
  }

  lemma NewHandlerHasNoSession(s: Server, h: HandlerId)
    requires Exclusive(s) && h !in s.handlers
    ensures h !in s.addressOf
  {
  }

  lemma FreeAddressHasNoSession(s: Server, a: uint32)
    requires Exclusive(s) && a !in s.pool.taken
    ensures a !in s.sessions
  {
    if a in s.sessions {
      assert Serves(s, s.sessions[a], a);
      assert Holds(s, s.sessions[a], a);
    }
  }

  /** Some rounds of a sweep that began in `s0`: exactly the keys gone so far were freed. */
  ghost predicate SweptFrom(s0: Server, s: Server) {
    && Covered(s) && s.sweep == Sweeping(None) && s.handlers == s0.handlers
    && s.sessions.Keys <= s0.sessions.Keys
    && s.pool.taken == s0.pool.taken - (s0.sessions.Keys - s.sessions.Keys)
  }

  lemma SweepStarts(s: Server)
    requires Covered(s) && s.sweep.NotSweeping?
    ensures SweptFrom(s, s.(sweep := Sweeping(None)))
  {
    CoveredHolds(s, CloseBegins);
  }

  lemma SweepRound(s0: Server, s: Server, key: uint32)
    requires SweptFrom(s0, s) && key in s.sessions
    ensures Enabled(s, SweepRelease(key)) && Enabled(Take(s, SweepRelease(key)), SweepDelete)
    ensures SweptFrom(s0, Take(Take(s, SweepRelease(key)), SweepDelete))
  {
    var s1 := Take(s, SweepRelease(key));
    assert Sessions.Apply(s, SweepRelease(key)) == s1;
    assert Sessions.Apply(s1, SweepDelete) == Take(s1, SweepDelete);
    CoveredHolds(s, SweepRelease(key));
    CoveredHolds(s1, SweepDelete);
    PoolStepFacts(s.pool, key);
    hide ReleaseOn;
    OneKeyLess(s0.pool.taken, s0.sessions.Keys, s.sessions.Keys, key);
    assert Take(s1, SweepDelete).sessions.Keys == s.sessions.Keys - {key};
    hide Covered;
  }

  lemma SweepDeletes(s: Server, key: uint32)
    requires s.sweep == Sweeping(Some(key))
    ensures Enabled(s, SweepDelete)
    ensures Take(s, SweepDelete) == s.(sessions := s.sessions - {key}, sweep := Sweeping(None))
  {
  }

  lemma SweepEnds(s0: Server, s: Server)
    requires SweptFrom(s0, s) && s.sessions == map[]
    ensures Covered(s.(sweep := NotSweeping)) && s.handlers == s0.handlers
    ensures s.pool.taken == s0.pool.taken - s0.sessions.Keys
  {
    CoveredHolds(s, CloseEnds);
    assert s0.sessions.Keys - s.sessions.Keys == s0.sessions.Keys;
  }

  class VPNServer {
    const ipPool: IPPool
    var sessions: map<uint32, ClientSession>
    ghost var handlers: map<HandlerId, Phase>
    ghost var addressOf: map<HandlerId, uint32>
    ghost var sweep: Sweep
    ghost var swept: bool

    ghost function State(): Server
      reads this, ipPool
    {
      Server(ipPool.State(), Owners(sessions), handlers, addressOf, sweep, swept)
    }

    /** The session objects carry the addresses the model records for them and share no limiter. */
    ghost predicate Valid()
      reads this`sessions, this`addressOf
    {
      Recorded(sessions, addressOf) && Separate(sessions)
    }

    constructor (ipPool: IPPool)
      ensures this.ipPool == ipPool && sessions == map[] && Valid()
      ensures State() == Server(ipPool.State(), map[], map[], map[], NotSweeping, false)
    {
      this.ipPool, sessions, handlers, addressOf, sweep, swept := ipPool, map[], map[], map[], NotSweeping, false;
    }

    // ---------- The critical sections of handleConnection ----------

    method Allocate(ghost h: HandlerId) returns (r: Result<IP, PoolError>)
      requires Valid() && Enabled(State(), AllocateIp(h))
      modifies this`handlers, ipPool
      ensures Valid() && State() == Take(old(State()), AllocateIp(h))
      ensures ipPool.State() == AllocateOn(old(ipPool.State())).0
      ensures r.Ok? <==> AllocateOn(old(ipPool.State())).1.Some?
      ensures r.Ok? ==> |r.value| == 4 && AllocateOn(old(ipPool.State())).1 == Some(IpToUint32(r.value))
      ensures handlers == old(handlers)[h := if r.Ok? then Replying(IpToUint32(r.value)) else Done]
    {
      r := ipPool.Allocate();
      if r.Ok? {
        ghost var a := AllocateOn(old(ipPool.State())).1.value;
        ConversionsAreInverse(a, r.value);
        handlers := handlers[h := Replying(a)];
      } else {
        handlers := handlers[h := Done];
      }
    }

    /** The success reply could not be sent: the address goes back. */
    method FailReply(ghost h: HandlerId, assignedIP: IP)
      requires Valid() && |assignedIP| == 4 && AtPhase(State(), h, Replying(IpToUint32(assignedIP)))
      modifies this`handlers, ipPool
      ensures Valid() && State() == Take(old(State()), ReplyFails(h))
      ensures ipPool.State() == ReleaseOn(old(ipPool.State()), IpToUint32(assignedIP)).0
      ensures handlers == old(handlers)[h := Done]
    {
      var _ := ipPool.Release(assignedIP);
      handlers := handlers[h := Done];
    }

    method Register(ghost h: HandlerId, assignedIP: IP, rateLimit: int, now: real) returns (sess: ClientSession)
      requires Valid() && |assignedIP| == 4 && AtPhase(State(), h, Replying(IpToUint32(assignedIP)))
      requires State().sweep.NotSweeping?
      requires h !in addressOf
      modifies this
      ensures Valid() && State() == Take(old(State()), RegisterSession(h))
      ensures handlers == old(handlers)[h := Serving(IpToUint32(assignedIP))] && sweep == old(sweep)
      ensures sessions == old(sessions)[IpToUint32(assignedIP) := sess]
      ensures fresh(sess) && sess.id == h && sess.assignedIP == assignedIP
      ensures sess.State() == Client(None, NewLimit(rateLimit, now), NewLimit(rateLimit, now))
      ensures sess.clientAddr == None && sess.LimitedTo(rateLimit, now)
    {
      sess := new ClientSession(h, assignedIP, rateLimit, now);
      var ipKey := IpToUint32(assignedIP);
      OwnersWith(sessions, ipKey, sess);
      SeparateWith(sessions, ipKey, sess);
      RecordedWith(sessions, addressOf, ipKey, sess);
      hide Owners, Separate, Recorded;
      sessions := sessions[ipKey := sess];
      addressOf := addressOf[h := ipKey];
      handlers := handlers[h := Serving(ipKey)];
    }

    method Unregister(ghost h: HandlerId, ipKey: uint32)
      requires Valid() && AtPhase(State(), h, Serving(ipKey)) && State().sweep.NotSweeping?
      modifies this`sessions, this`handlers
      ensures Valid() && State() == Take(old(State()), Sessions.Unregister(h))
      ensures handlers == old(handlers)[h := Leaving(ipKey)]
      ensures sessions == old(sessions) - {ipKey}
    {
      OwnersWithout(sessions, ipKey);
      SeparateWithout(sessions, ipKey);
      RecordedWithout(sessions, addressOf, ipKey);
      hide Owners, Separate, Recorded;
      sessions := sessions - {ipKey};
      handlers := handlers[h := Leaving(ipKey)];
    }

    method ReleaseAddress(ghost h: HandlerId, assignedIP: IP)
      requires Valid() && |assignedIP| == 4 && AtPhase(State(), h, Leaving(IpToUint32(assignedIP)))
      modifies this`handlers, ipPool
      ensures Valid() && State() == Take(old(State()), ReleaseIp(h))
      ensures ipPool.State() == ReleaseOn(old(ipPool.State()), IpToUint32(assignedIP)).0
      ensures handlers == old(handlers)[h := Done]
    {
      var _ := ipPool.Release(assignedIP);
      handlers := handlers[h := Done];
    }

    /** The deferred cleanup: delete the entry, then release the address. */
    method Cleanup(ghost h: HandlerId, assignedIP: IP)
      requires Valid() && |assignedIP| == 4 && AtPhase(State(), h, Serving(IpToUint32(assignedIP)))
      requires State().sweep.NotSweeping?
      modifies this`sessions, this`handlers, ipPool
      ensures Valid() && State() == Take(Take(old(State()), Sessions.Unregister(h)), ReleaseIp(h))
      ensures sessions == old(sessions) - {IpToUint32(assignedIP)}
      ensures ipPool.State() == ReleaseOn(old(ipPool.State()), IpToUint32(assignedIP)).0
      ensures handlers == old(handlers)[h := Done]
      ensures Exclusive(old(State())) ==> Exclusive(State())
    {
      if Exclusive(State()) {
        CleanupKeeps(State(), h, IpToUint32(assignedIP));
      }
      hide Exclusive;
      Unregister(h, IpToUint32(assignedIP));
      ReleaseAddress(h, assignedIP);
    }

    /** `handleConnection` up to the registration of the session, undisturbed. */
    method Connect(ghost h: HandlerId, authenticated: bool, replyFails: bool, rateLimit: int, now: real)
      returns (sess: ClientSession?)
      requires Valid() && Exclusive(State()) && State().sweep.NotSweeping?
      requires h !in handlers
      modifies this, ipPool
      ensures Valid() && sweep == old(sweep) && Exclusive(State())
      ensures sess != null <==> authenticated && AllocateOn(old(ipPool.State())).1.Some? && !replyFails
      ensures sess == null ==>
                && sessions == old(sessions) && handlers == old(handlers)[h := Done]
                && ipPool.State().taken == old(ipPool.State().taken)
      ensures sess != null ==>
                && fresh(sess) && sess.id == h && sess.clientAddr == None && sess.LimitedTo(rateLimit, now)
                && |sess.assignedIP| == 4
                && AllocateOn(old(ipPool.State())) == (ipPool.State(), Some(IpToUint32(sess.assignedIP)))
                && sessions == old(sessions)[IpToUint32(sess.assignedIP) := sess]
                && handlers == old(handlers)[h := Serving(IpToUint32(sess.assignedIP))]
    {
      hide AllocateOn, ReleaseOn, Exclusive, Take, Owners, Valid, IpToUint32, Free;
      GrantCanBeUndone(State());
      NewHandlerHasNoSession(State(), h);
      AcceptKeeps(State(), h);
      handlers := handlers[h := Connecting];
      ghost var s := State();
      if !authenticated {
        UpdateTwice(old(handlers), h, Connecting, Done);
        RejectKeeps(s, h);
        handlers := handlers[h := Done];
        return null;
      }
      var assignedIP := Allocate(h);
      HandlerStepKeeps(s, AllocateIp(h), State());
      s := State();
      if assignedIP.Err? {
        UpdateTwice(old(handlers), h, Connecting, Done);
        return null;
      }
      ghost var ipKey := IpToUint32(assignedIP.value);
      UpdateTwice(old(handlers), h, Connecting, Replying(ipKey));
      assert h in handlers && handlers[h] == Replying(ipKey);
      if replyFails {
        UpdateTwice(old(handlers), h, Replying(ipKey), Done);
        FailReply(h, assignedIP.value);
        HandlerStepKeeps(s, ReplyFails(h), State());
        return null;
      }
      UpdateTwice(old(handlers), h, Replying(ipKey), Serving(ipKey));
      sess := Register(h, assignedIP.value, rateLimit, now);
      HandlerStepKeeps(s, RegisterSession(h), State());
    }

    /**
     `handleConnection` from accept to return, undisturbed. Whichever way it ends, the session map and
     the set of allocated addresses are as before; a connection that was served was so under a free
     address and a free key.
     */
    method HandleConnection(ghost h: HandlerId, authenticated: bool, replyFails: bool, rateLimit: int, now: real)
      returns (sess: ClientSession?)
      requires Valid() && Exclusive(State()) && State().sweep.NotSweeping?
      requires h !in handlers
      modifies this, ipPool
      ensures Valid() && Exclusive(State()) && State().sweep.NotSweeping?
      ensures sessions == old(sessions)
      ensures ipPool.State().taken == old(ipPool.State().taken)
      ensures handlers == old(handlers)[h := Done]
      ensures sess != null <==> authenticated && AllocateOn(old(ipPool.State())).1.Some? && !replyFails
      ensures sess != null ==>
                && fresh(sess) && sess.id == h && sess.clientAddr == None && sess.LimitedTo(rateLimit, now)
                && |sess.assignedIP| == 4
                && AllocateOn(old(ipPool.State())).1 == Some(IpToUint32(sess.assignedIP))
                && IpToUint32(sess.assignedIP) !in old(sessions)
                && IpToUint32(sess.assignedIP) in Free(old(ipPool.State()))
    {
      hide AllocateOn, ReleaseOn, Exclusive, Take, Owners, Free, IpToUint32, Valid;
      GrantCanBeUndone(State());
      sess := Connect(h, authenticated, replyFails, rateLimit, now);
      if sess == null {
        return;
      }
      var ipKey := IpToUint32(sess.assignedIP);
      InsertThenRemove(old(sessions), ipKey, sess);
      UpdateTwice(old(handlers), h, Serving(ipKey), Done);
      Cleanup(h, sess.assignedIP);
    }

    // ---------- Close ----------

    /** The first half of a round of the sweep: release a session's address. */
    method SweepAddress(key: uint32)
      requires Valid() && State().sweep == Sweeping(None) && key in sessions
      modifies this`sweep, this`swept, ipPool
      ensures Valid() && Enabled(old(State()), SweepRelease(key)) && State() == Take(old(State()), SweepRelease(key))
      ensures sweep == Sweeping(Some(key))
    {
      hide Separate, ReleaseOn;
      var sess := sessions[key];
      var _ := ipPool.Release(sess.assignedIP);
      sweep, swept := Sweeping(Some(key)), true;
    }

    /** One round of the sweep in `Close`: release a session's address, then delete its entry. */
    method SweepOne(key: uint32)
      requires Valid() && State().sweep == Sweeping(None) && key in sessions
      modifies this, ipPool
      ensures Valid() && State() == Take(Take(old(State()), SweepRelease(key)), SweepDelete)
      ensures sessions == old(sessions) - {key} && sweep == old(sweep)
    {
      SweepAddress(key);
      OwnersWithout(sessions, key);
      SeparateWithout(sessions, key);
      RecordedWithout(sessions, addressOf, key);
      SweepDeletes(State(), key);
      hide Separate, Recorded, ReleaseOn, Owners, Take;
      sessions := sessions - {key};
      sweep := Sweeping(None);
    }

    /** The sweep of `Close`, undisturbed: no session is left, and exactly their addresses are freed. */
    method Close()
      requires Valid() && Covered(State()) && State().sweep.NotSweeping?
      modifies this, ipPool
      ensures Valid() && Covered(State()) && State().sweep.NotSweeping?
      ensures sessions == map[]
      ensures ipPool.State().taken == old(ipPool.State().taken) - old(sessions.Keys)
      ensures handlers == old(handlers)
    {
      ghost var s0 := State();
      SweepStarts(s0);
      hide Covered;
      hide SweptFrom;
      hide Owners;
      hide Valid;
      hide Take;
      sweep := Sweeping(None);
      while sessions != map[]
        invariant Valid() && SweptFrom(s0, State()) && sweep == Sweeping(None)
        decreases sessions.Keys
      {
        var key :| key in sessions;
        SweepRound(s0, State(), key);
        SweepOne(key);
      }
      SweepEnds(s0, State());
      sweep := NotSweeping;
    }

    // ---------- The packet loops ----------

    /** The session a client packet belongs to: the one under its source address. */
    method SessionOfSource(pkt: seq<uint8>) returns (sess: ClientSession?)
      ensures sess != null <==> SrcIPUint32(pkt).Ok? && SrcIPUint32(pkt).value in sessions
      ensures sess != null ==> sess == sessions[SrcIPUint32(pkt).value]
    {
      var srcKey := SrcIPUint32(pkt);
      if srcKey.Ok? && srcKey.value in sessions {
        return sessions[srcKey.value];
      }
      return null;
    }

    method SessionOfDestination(pkt: seq<uint8>) returns (sess: ClientSession?)
      ensures sess != null <==> DstIPUint32(pkt).Ok? && DstIPUint32(pkt).value in sessions
      ensures sess != null ==> sess == sessions[DstIPUint32(pkt).value]
    {
      var dstKey := DstIPUint32(pkt);
      if dstKey.Ok? && dstKey.value in sessions {
        return sessions[dstKey.value];
      }
      return null;
    }

    /**
     One round of `dataReadLoop`: read a datagram into a buffer of 1300 bytes, find its session, and
     let `Upstream` decide. The result is the packet for the TUN device, if there is one.
     */
    method DataReadRound(dataConn: ObfuscatedConn, buf: array<uint8>, tempBuf: array<uint8>, now: real, hasTun: bool)
      returns (stopped: bool, toTun: Option<seq<uint8>>)
      requires Valid()
      requires Correct(dataConn.obf.aead)
      requires buf.Length == PACKET_BUFFER && tempBuf.Length == WIRE_BUFFER
      modifies dataConn.conn`incoming, buf, tempBuf
      modifies (set k | k in sessions :: sessions[k])`clientAddr
      modifies set k | k in sessions && sessions[k].upLimiter != null :: sessions[k].upLimiter
      ensures dataConn.conn.incoming == NextRead(dataConn.obf.aead, old(dataConn.conn.incoming), PACKET_BUFFER).1
      ensures match NextRead(dataConn.obf.aead, old(dataConn.conn.incoming), PACKET_BUFFER).0
              case ReadError => stopped && toTun == None
              case Got(pkt, from) =>
                && !stopped
                && (SrcIPUint32(pkt).Ok? && SrcIPUint32(pkt).value in sessions ==>
                      var sess := sessions[SrcIPUint32(pkt).value];
                      var (c, written) := UpstreamOn(old(sess.State()), |pkt|, from, now, hasTun);
                      && sess.State() == c && toTun == (if written then Some(pkt) else None)
                      && forall k | k in sessions && sessions[k] != sess ::
                           sessions[k].State() == old(sessions[k].State()))
                && (SrcIPUint32(pkt).Err? || SrcIPUint32(pkt).value !in sessions ==>
                      && toTun == None
                      && forall k | k in sessions :: sessions[k].State() == old(sessions[k].State()))
    {
      hide NextRead, UpstreamOn, SrcIPUint32, Decodable, AllowOn, Correct, Recorded;
      var read := dataConn.ReadFrom(buf, tempBuf);
      if read.Err? {
        return true, None;
      }
      var (n, addr) := read.value;
      var pkt := buf[..n];
      var sess := SessionOfSource(pkt);
      if sess == null {
        return false, None;
      }
      var written := sess.Upstream(pkt, addr, now, hasTun);
      return false, if written then Some(pkt) else None;
    }

    /**
     One round of `tunReadLoop` on a packet read from the TUN device: find its session, let
     `Downstream` decide, and send the packet as one obfuscated frame.
     */
    method TunReadRound(
      pkt: seq<uint8>, dataConn: ObfuscatedConn, out: array<uint8>, nonce: Option<seq<uint8>>, pad: seq<uint8>,
      fails: bool, now: real)
      requires Valid()
      requires Correct(dataConn.obf.aead)
      requires |pkt| <= PACKET_BUFFER && out.Length == WIRE_BUFFER
      requires nonce.Some? ==> |nonce.value| == NONCE_SIZE
      requires |pad| < 64
      modifies dataConn.conn`sent, out
      modifies set k | k in sessions && sessions[k].downLimiter != null :: sessions[k].downLimiter
      ensures Addressee(pkt, sessions).None? ==>
                && dataConn.conn.sent == old(dataConn.conn.sent)
                && forall k | k in sessions :: sessions[k].State() == old(sessions[k].State())
      ensures Addressee(pkt, sessions).Some? ==>
                var sess := Addressee(pkt, sessions).value;
                var (c, to) := DownstreamOn(old(sess.State()), |pkt|, now);
                && sess.State() == c
                && (forall k | k in sessions && sessions[k] != sess :: sessions[k].State() == old(sessions[k].State()))
                && dataConn.conn.sent == old(dataConn.conn.sent)
                   + if to.Some? && nonce.Some? && !fails
                     then [(Frame(dataConn.obf.aead, pkt, nonce.value, pad), to.value)] else []
    {
      hide DownstreamOn, DstIPUint32, Frame, AllowOn, Correct;
      var sess := SessionOfDestination(pkt);
      if sess == null {
        return;
      }
      var clientAddr := sess.Downstream(pkt, now);
      if clientAddr.Some? {
        var _ := dataConn.WriteTo(pkt, clientAddr.value, out, nonce, pad, fails);
      }
    }
  }
}
