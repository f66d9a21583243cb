/** When a session puts out more than capacity + rate * time, the bound its limiter seems to give. */
module RelayExcess {
  import opened Words
  import opened Wrappers
  import opened IpPool
  import opened PoolProperties
  import opened Packet
  import opened RateLimit
  import opened Sessions
  import opened Conn
  import opened Relay
  import opened RelayRates
  import opened RelayWindows

  /** The bytes put out between a state and a later one. */
  ghost function OutputSince(r: RelayState, t: RelayState, dir: Direction, sid: HandlerId): int {
    OutputBetween(t.log, dir, sid, r.clock, t.clock) - OutputBetween(r.log, dir, sid, r.clock, t.clock)
  }

  /** From state `r` on, a continuation puts out more than capacity + rate * (time since `r`). */
  ghost predicate Exceeds(r: RelayState, acts: seq<Act>, dir: Direction, sid: HandlerId)
    requires Limited(r, dir, sid)
  {
    var t, b := RunActs(r, acts), Limiter(r.clients[sid], dir).value;
    OutputSince(r, t, dir, sid) as real > b.capacity + Earned(b.rate, t.clock - r.clock)
  }

  /** The session is registered under `key` and has a limiter. */
  predicate Entered(r: RelayState, dir: Direction, sid: HandlerId, key: uint32) {
    key in r.server.sessions && r.server.sessions[key] == sid && Limited(r, dir, sid)
  }

  /** There is somewhere to put the session's packets out to. */
  predicate HasOutlet(r: RelayState, dir: Direction, sid: HandlerId)
    requires sid in r.clients
  {
    match dir
    case Up => r.hasTun
    case Down => r.clients[sid].addr.Some?
  }

  predicate Live(r: RelayState, dir: Direction, sid: HandlerId, key: uint32) {
    Entered(r, dir, sid, key) && HasOutlet(r, dir, sid)
  }

  predicate Idle(r: RelayState, dir: Direction) {
    match dir
    case Up => r.up.UpIdle?
    case Down => r.down.DownIdle?
  }

  const CHUNK := 1250 // bytes of the packets below; a hundred of them are one Mbit

  const SMALLEST := 20 // bytes of the smallest packet that parses, a bare header

  /** An IPv4 packet of `size` bytes from and to the address `key`. */
  function PacketOf(key: uint32, size: nat): (pkt: Pkt)
    requires SMALLEST <= size <= PACKET_BUFFER
    ensures |pkt| == size && SrcIPUint32(pkt) == Ok(key) && DstIPUint32(pkt) == Ok(key)
  {
    var pkt := [0x45] + seq(11, _ => 0) + PutUint32(key) + PutUint32(key) + seq(size - SMALLEST, _ => 0);
    assert pkt[12..16] == PutUint32(key) && pkt[16..20] == PutUint32(key);
    Uint32RoundTrip(key);
    pkt
  }

  /** Putting out the packet the loop holds. */
  function Finish(dir: Direction): seq<Act> {
    match dir
    case Up => [StoreUp, WriteUp]
    case Down => [LoadDown, SendDown]
  }

  /** Receiving a packet of the session and asking its limiter. */
  function Fetch(dir: Direction, key: uint32, from: Addr, size: nat): seq<Act>
    requires SMALLEST <= size <= PACKET_BUFFER
  {
    match dir
    case Up => [ReceiveUp(PacketOf(key, size), from), AdmitUp]
    case Down => [ReceiveDown(PacketOf(key, size)), AdmitDown]
  }

  function Burst(dir: Direction, key: uint32, from: Addr, n: nat): seq<Act> {
    if n == 0 then [] else Burst(dir, key, from, n - 1) + (Fetch(dir, key, from, CHUNK) + Finish(dir))
  }

  lemma {:induction false} RunsConcat(r: RelayState, a: seq<Act>, b: seq<Act>)
    ensures RunActs(r, a + b) == RunActs(RunActs(r, a), b)
    decreases |b|
  {
    if b == [] {
      assert a + b == a;
    } else {
      assert (a + b)[..|a + b| - 1] == a + b[..|b| - 1];
      RunsConcat(r, a, b[..|b| - 1]);
    }
  }

  lemma RunsTwo(r: RelayState, a: Act, b: Act)
    ensures RunActs(r, [a, b]) == Do(Do(r, a), b)
  {
    hide Do;
    assert [a, b][..1] == [a] && [a][..0] == [];
    assert RunActs(r, [a]) == Do(r, a);
  }

  /** State `t` differs from `r` at most in the loops, the session's own fields and the log. */
  predicate SameServer(r: RelayState, t: RelayState) {
    t.server == r.server && t.clock == r.clock && t.hasTun == r.hasTun
  }

  lemma FinishPutsOut(r: RelayState, dir: Direction, sid: HandlerId, key: uint32, from: real, to: real)
    requires Live(r, dir, sid, key) && Held(r, dir, sid) > 0 && from <= r.clock <= to
    ensures var t := RunActs(r, Finish(dir));
            && SameServer(r, t) && Live(t, dir, sid, key) && Idle(t, dir)
            && Limiter(t.clients[sid], dir) == Limiter(r.clients[sid], dir)
            && TokensNow(t, dir, sid) == TokensNow(r, dir, sid) && Refilling(t, dir, sid) == Refilling(r, dir, sid)
            && OutputBetween(t.log, dir, sid, from, to) == OutputBetween(r.log, dir, sid, from, to) + Held(r, dir, sid)
  {
    hide OutputBetween, TokensNow, Finish, RunActs;
    FinishDoes(r, dir, sid);
    var t := RunActs(r, Finish(dir));
    var e := FinalOutput(r, dir, sid);
    OutputAppend(r.log, [e], dir, sid, from, to);
    SingleEvent(e, dir, sid, from, to);
    SameTokens(r, t, dir, sid);
    hide Limiter;
  }

  /** The event that puts out the packet held. */
  function FinalOutput(r: RelayState, dir: Direction, sid: HandlerId): Event
    requires Held(r, dir, sid) > 0 && sid in r.clients
  {
    match dir
    case Up => Output(Up, sid, r.up.pkt, None, r.clock)
    case Down =>
      var target := if r.down.DownSending? then Some(r.down.to) else r.clients[sid].addr;
      Output(Down, sid, r.down.pkt, target, r.clock)
  }

  lemma FinishDoes(r: RelayState, dir: Direction, sid: HandlerId)
    requires sid in r.clients && Held(r, dir, sid) > 0 && HasOutlet(r, dir, sid)
    ensures var t := RunActs(r, Finish(dir));
            && SameServer(r, t) && Idle(t, dir) && t.log == r.log + [FinalOutput(r, dir, sid)]
            && sid in t.clients && HasOutlet(t, dir, sid)
            && Limiter(t.clients[sid], dir) == Limiter(r.clients[sid], dir)
  {
    RunsTwo(r, Finish(dir)[0], Finish(dir)[1]);
    hide RunActs;
  }

  lemma SameTokens(r: RelayState, t: RelayState, dir: Direction, sid: HandlerId)
    requires Limited(r, dir, sid) && Limited(t, dir, sid) && t.clock == r.clock
    requires Limiter(t.clients[sid], dir) == Limiter(r.clients[sid], dir)
    ensures TokensNow(t, dir, sid) == TokensNow(r, dir, sid) && Refilling(t, dir, sid) == Refilling(r, dir, sid)
  {
  }

  lemma FetchHolds(
    r: RelayState, dir: Direction, sid: HandlerId, key: uint32, who: Addr, size: nat, from: real, to: real)
    requires Entered(r, dir, sid, key) && Idle(r, dir) && SMALLEST <= size <= PACKET_BUFFER
    requires Refilling(r, dir, sid) && TokensNow(r, dir, sid) >= size as real
    ensures var t := RunActs(r, Fetch(dir, key, who, size));
            && SameServer(r, t) && Entered(t, dir, sid, key) && Held(t, dir, sid) == size
            && t.clients[sid].addr == r.clients[sid].addr
            && Refilling(t, dir, sid) && TokensNow(t, dir, sid) == TokensNow(r, dir, sid) - size as real
            && Limiter(t.clients[sid], dir).value.rate == Limiter(r.clients[sid], dir).value.rate
            && Limiter(t.clients[sid], dir).value.capacity == Limiter(r.clients[sid], dir).value.capacity
            && (dir.Up? ==> t.up.UpAdmitted? && t.up.sid == sid)
            && OutputBetween(t.log, dir, sid, from, to) == OutputBetween(r.log, dir, sid, from, to)
  {
    var acts := Fetch(dir, key, who, size);
    RunsTwo(r, acts[0], acts[1]);
    var found := Do(r, acts[0]);
    LookupFinds(r, dir, sid, key, who, size);
    AskingSpends(Limiter(r.clients[sid], dir).value, size, r.clock);
    AdmittingIsQuiet(found, acts[1], dir, sid, from, to);
    hide OutputBetween, Refill, RunActs, PacketOf, AllowOn, AskEvents;
  }

  lemma AdmittingIsQuiet(r: RelayState, act: Act, dir: Direction, sid: HandlerId, from: real, to: real)
    requires act.AdmitUp? || act.AdmitDown?
    ensures OutputBetween(Do(r, act).log, dir, sid, from, to) == OutputBetween(r.log, dir, sid, from, to)
  {
    LogGrows(r, act);
    OutputAppend(r.log, NewEvents(r, act), dir, sid, from, to);
    NewEventsOf(r, act, dir, sid, from, to);
    hide *;
  }

  lemma LookupFinds(r: RelayState, dir: Direction, sid: HandlerId, key: uint32, who: Addr, size: nat)
    requires Entered(r, dir, sid, key) && Idle(r, dir) && SMALLEST <= size <= PACKET_BUFFER
    ensures Do(r, Fetch(dir, key, who, size)[0])
         == match dir
            case Up => r.(up := UpFound(sid, PacketOf(key, size), who))
            case Down => r.(down := DownFound(sid, PacketOf(key, size)))
  {
    hide PacketOf;
  }

  /** The limiter limits, and does not hold more than its capacity. */
  predicate Refilling(r: RelayState, dir: Direction, sid: HandlerId) {
    && Limited(r, dir, sid)
    && var b := Limiter(r.clients[sid], dir).value;
       b.rate > 0.0 && b.tokens <= b.capacity
  }

  /** With enough tokens a burst of packets is put out at one time. */
  lemma {:induction false} BurstPutsOut(
    r: RelayState, dir: Direction, sid: HandlerId, key: uint32, who: Addr, n: nat, from: real, to: real)
    requires Live(r, dir, sid, key) && Idle(r, dir) && from <= r.clock <= to
    requires Refilling(r, dir, sid) && TokensNow(r, dir, sid) >= (n * CHUNK) as real
    ensures var t := RunActs(r, Burst(dir, key, who, n));
            && SameServer(r, t) && Live(t, dir, sid, key) && Idle(t, dir)
            && Refilling(t, dir, sid) && TokensNow(t, dir, sid) == TokensNow(r, dir, sid) - (n * CHUNK) as real
            && OutputBetween(t.log, dir, sid, from, to) == OutputBetween(r.log, dir, sid, from, to) + n * CHUNK
    decreases n
  {
    if n > 0 {
      BurstPutsOut(r, dir, sid, key, who, n - 1, from, to);
      var s := RunActs(r, Burst(dir, key, who, n - 1));
      RunsConcat(r, Burst(dir, key, who, n - 1), Fetch(dir, key, who, CHUNK) + Finish(dir));
      RunsConcat(s, Fetch(dir, key, who, CHUNK), Finish(dir));
      hide RunActs, OutputBetween, Fetch, Finish, TokensNow, Held;
      FetchHolds(s, dir, sid, key, who, CHUNK, from, to);
      var u := RunActs(s, Fetch(dir, key, who, CHUNK));
      FinishPutsOut(u, dir, sid, key, from, to);
    }
  }

  /** Waiting just long enough fills the limiter. */
  lemma WaitingFills(r: RelayState, dir: Direction, sid: HandlerId, key: uint32)
    requires Live(r, dir, sid, key) && Idle(r, dir) && Refilling(r, dir, sid)
    requires Limiter(r.clients[sid], dir).value.lastUpdate <= r.clock
    ensures var b := Limiter(r.clients[sid], dir).value;
            var wait := (b.capacity - TokensNow(r, dir, sid)) / b.rate;
            var t := Do(r, Tick(wait));
            && wait >= 0.0 && Earned(b.rate, wait) == b.capacity - TokensNow(r, dir, sid)
            && t == r.(clock := r.clock + wait)
            && Live(t, dir, sid, key) && Idle(t, dir) && Refilling(t, dir, sid) && TokensNow(t, dir, sid) == b.capacity
  {
    var b := Limiter(r.clients[sid], dir).value;
    var wait := (b.capacity - TokensNow(r, dir, sid)) / b.rate;
    DivideBack(b.capacity - TokensNow(r, dir, sid), b.rate);
    hide Earned;
    Elapse(b.rate, b.lastUpdate, r.clock, r.clock + wait);
  }

  lemma DivideBack(x: real, rate: real)
    requires rate > 0.0 && x >= 0.0
    ensures x / rate >= 0.0 && Earned(rate, x / rate) == x
  {
  }

  /** Puts out what is held, waits until the limiter is full, and puts out a full burst. */
  function Excess(r: RelayState, dir: Direction, sid: HandlerId, key: uint32, who: Addr, n: nat): seq<Act>
    requires Refilling(r, dir, sid)
  {
    var b := Limiter(r.clients[sid], dir).value;
    Finish(dir) + [Tick((b.capacity - TokensNow(r, dir, sid)) / b.rate)] + Burst(dir, key, who, n)
  }

  lemma ExcessPutsOut(
    r: RelayState, dir: Direction, sid: HandlerId, key: uint32, who: Addr, n: nat, wait: real, from: real)
    requires Live(r, dir, sid, key) && Held(r, dir, sid) > 0 && Refilling(r, dir, sid) && wait >= 0.0 && from <= r.clock
    requires var b := Limiter(r.clients[sid], dir).value;
             && b.lastUpdate <= r.clock && b.capacity == (n * CHUNK) as real
             && wait == (b.capacity - TokensNow(r, dir, sid)) / b.rate
    ensures var t := RunActs(r, Excess(r, dir, sid, key, who, n));
            && t.clock == r.clock + wait
            && OutputBetween(t.log, dir, sid, from, r.clock + wait)
               == OutputBetween(r.log, dir, sid, from, r.clock + wait) + Held(r, dir, sid) + n * CHUNK
  {
    hide RunActs, Do, Excess, OutputBetween, Held, TokensNow, Refill, Earned, Finish, Burst, Live, Idle;
    var done := RunActs(r, Finish(dir));
    ExcessPath(r, dir, sid, key, who, n, wait);
    FinishPutsOut(r, dir, sid, key, from, r.clock + wait);
    WaitingFills(done, dir, sid, key);
    BurstPutsOut(Do(done, Tick(wait)), dir, sid, key, who, n, from, r.clock + wait);
  }

  lemma ExcessPath(r: RelayState, dir: Direction, sid: HandlerId, key: uint32, who: Addr, n: nat, wait: real)
    requires Refilling(r, dir, sid)
    requires var b := Limiter(r.clients[sid], dir).value; wait == (b.capacity - TokensNow(r, dir, sid)) / b.rate
    ensures RunActs(r, Excess(r, dir, sid, key, who, n))
         == RunActs(Do(RunActs(r, Finish(dir)), Tick(wait)), Burst(dir, key, who, n))
  {
    hide RunActs, Do, Finish, Burst, TokensNow;
    RunsConcat(r, Finish(dir) + [Tick(wait)], Burst(dir, key, who, n));
    RunsConcat(r, Finish(dir), [Tick(wait)]);
    RunsOne(RunActs(r, Finish(dir)), Tick(wait));
  }

  lemma RunsOne(r: RelayState, a: Act)
    ensures RunActs(r, [a]) == Do(r, a)
  {
    assert [a][..0] == [];
  }

  /** The capacity is a whole number of packets. */
  lemma CapacityInChunks(r: RelayState, dir: Direction, sid: HandlerId) returns (n: nat)
    requires Metered(r) && Limited(r, dir, sid)
    ensures n >= 100 && Limiter(r.clients[sid], dir).value.capacity == (n * CHUNK) as real
  {
    LimiterInRange(r, dir, sid);
    var mbps: nat, at: real :| mbps > 0 && r.limits[sid].value == NewBucket(mbps, at);
    n := 100 * mbps;
  }

  /** The session has no entry any more, and the loop is not about to ask for a packet of it. */
  predicate Stale(r: RelayState, dir: Direction, sid: HandlerId) {
    && (forall key | key in r.server.sessions :: r.server.sessions[key] != sid)
    && match dir
       case Up => !(r.up.UpFound? && r.up.sid == sid)
       case Down => !(r.down.DownFound? && r.down.sid == sid)
  }

  lemma StaleStays(r: RelayState, act: Act, dir: Direction, sid: HandlerId)
    requires Addressed(r) && Stale(r, dir, sid) && sid in r.clients
    ensures Stale(Do(r, act), dir, sid)
  {
    if act.Session? {
      EntriesOfOthers(r.server, act.step, sid);
      hide Sessions.Apply;
    } else {
      hide Sessions.Apply, Ask, AskEvents, Addressed, NewLimit;
    }
  }

  /** A session object that has no entry is never entered again. */
  lemma EntriesOfOthers(s: Server, step: Step, h: HandlerId)
    requires Covered(s) && h in s.addressOf && forall key | key in s.sessions :: s.sessions[key] != h
    ensures var t := Sessions.Apply(s, step); forall key | key in t.sessions :: t.sessions[key] != h
  {
    hide AllocateOn, ReleaseOn, WellFormed;
  }

  /** A stale session puts out at most what is held. */
  lemma {:induction false} StalePutsOutHeld(
    r: RelayState, acts: seq<Act>, dir: Direction, sid: HandlerId, from: real, to: real)
    requires Addressed(r) && Metered(r) && Limited(r, dir, sid) && Stale(r, dir, sid)
    ensures var t := RunActs(r, acts);
            && Stale(t, dir, sid) && Limited(t, dir, sid)
            && OutputBetween(t.log, dir, sid, from, to) + Held(t, dir, sid)
               <= OutputBetween(r.log, dir, sid, from, to) + Held(r, dir, sid)
    decreases |acts|
  {
    hide Addressed, Metered, Do, NewEvents, OutputBetween, Held;
    if acts != [] {
      var before, act := RunActs(r, acts[..|acts| - 1]), acts[|acts| - 1];
      StalePutsOutHeld(r, acts[..|acts| - 1], dir, sid, from, to);
      RunsKeepMetered(r, acts[..|acts| - 1]);
      StaleStays(before, act, dir, sid);
      StepSpends(before, act, dir, sid, from, to);
      LogGrows(before, act);
      OutputAppend(before.log, NewEvents(before, act), dir, sid, from, to);
      NewEventsOf(before, act, dir, sid, from, to);
      if !act.WriteUp? && !act.SendDown? {
        OthersHoldNoMore(before, act, dir, sid);
      }
    }
  }

  /** Without a TUN device nothing is written. */
  lemma {:induction false} NoTunNoWrites(r: RelayState, acts: seq<Act>, sid: HandlerId, from: real, to: real)
    requires !r.hasTun
    ensures var t := RunActs(r, acts);
            && !t.hasTun && t.clock >= r.clock
            && OutputBetween(t.log, Up, sid, from, to) == OutputBetween(r.log, Up, sid, from, to)
    decreases |acts|
  {
    hide OutputBetween, Sessions.Apply, AllowOn;
    if acts != [] {
      var before, act := RunActs(r, acts[..|acts| - 1]), acts[|acts| - 1];
      NoTunNoWrites(r, acts[..|acts| - 1], sid, from, to);
      LogGrows(before, act);
      OutputAppend(before.log, NewEvents(before, act), Up, sid, from, to);
      NewEventsOf(before, act, Up, sid, from, to);
      if act.SendDown? || act.WriteUp? {
        SentIsNotWritten(before, act, sid, from, to);
      }
    }
  }

  lemma SentIsNotWritten(r: RelayState, act: Act, sid: HandlerId, from: real, to: real)
    requires act.SendDown? || (act.WriteUp? && !r.hasTun)
    ensures OutputBetween(NewEvents(r, act), Up, sid, from, to) == 0
  {
    var e := NewEvents(r, act);
    if e != [] {
      assert e == [e[0]];
      SingleEvent(e[0], Up, sid, from, to);
    }
  }

  lemma MutePutsOutOnePacket(r: RelayState, acts: seq<Act>, dir: Direction, sid: HandlerId)
    requires Addressed(r) && Metered(r) && Limited(r, dir, sid)
    requires Stale(r, dir, sid) || (dir.Up? && !r.hasTun)
    ensures OutputSince(r, RunActs(r, acts), dir, sid) <= PACKET_BUFFER
  {
    assert Held(r, dir, sid) <= PACKET_BUFFER;
    hide Addressed, Metered, RunActs, OutputBetween, Held, Stale, Limited;
    var t := RunActs(r, acts);
    if Stale(r, dir, sid) {
      StalePutsOutHeld(r, acts, dir, sid, r.clock, t.clock);
    } else {
      NoTunNoWrites(r, acts, sid, r.clock, t.clock);
    }
  }

  /** One packet is less than the capacity of any limiter. */
  lemma OnePacketIsNoExcess(r: RelayState, acts: seq<Act>, dir: Direction, sid: HandlerId, n: nat)
    requires Limited(r, dir, sid) && OutputSince(r, RunActs(r, acts), dir, sid) <= PACKET_BUFFER
    requires var b := Limiter(r.clients[sid], dir).value;
             && b.rate > 0.0 && RunActs(r, acts).clock >= r.clock
             && b.capacity == (n * CHUNK) as real && n >= 100
    ensures !Exceeds(r, acts, dir, sid)
  {
    var b, later := Limiter(r.clients[sid], dir).value, RunActs(r, acts).clock;
    hide RunActs, OutputSince, Earned, Limiter, Limited;
    Elapse(b.rate, 0.0, r.clock, later);
    assert n * CHUNK >= PACKET_BUFFER;
  }

  /** A session that is not live, and cannot become so, never exceeds the plain bound. */
  lemma MuteNeverExceeds(r: RelayState, acts: seq<Act>, dir: Direction, sid: HandlerId)
    requires Addressed(r) && Metered(r) && Limited(r, dir, sid)
    requires Stale(r, dir, sid) || (dir.Up? && !r.hasTun)
    ensures !Exceeds(r, acts, dir, sid)
  {
    hide *;
    var n := CapacityInChunks(r, dir, sid);
    LimiterInRange(r, dir, sid);
    OutputAfterState(r, acts, dir, sid, 0.0, 0.0);
    MutePutsOutOnePacket(r, acts, dir, sid);
    OnePacketIsNoExcess(r, acts, dir, sid, n);
  }

  /** What a preparation must leave behind for a burst to exceed the plain bound after it. */
  ghost predicate Prepared(r: RelayState, s: RelayState, dir: Direction, sid: HandlerId, key: uint32, spent: real)
    requires Limited(r, dir, sid)
  {
    && Metered(s) && Live(s, dir, sid, key) && Held(s, dir, sid) == Held(r, dir, sid) && s.clock >= r.clock
    && (forall to :: OutputBetween(s.log, dir, sid, r.clock, to) == OutputBetween(r.log, dir, sid, r.clock, to))
    && var b, c := Limiter(r.clients[sid], dir).value, Limiter(s.clients[sid], dir).value;
       && c.rate == b.rate && c.capacity == b.capacity
       && Earned(b.rate, s.clock - r.clock) == spent
       && (TokensNow(s, dir, sid) == b.capacity || TokensNow(s, dir, sid) >= TokensNow(r, dir, sid) + spent)
  }

  /** A held packet larger than what the limiter lacks, and than what the preparation earned, makes the excess. */
  lemma ExcessAfter(r: RelayState, first: seq<Act>, dir: Direction, sid: HandlerId, key: uint32, spent: real)
    requires Limited(r, dir, sid) && Prepared(r, RunActs(r, first), dir, sid, key, spent)
    requires Held(r, dir, sid) > 0 && Held(r, dir, sid) as real > spent
    requires Held(r, dir, sid) as real > Limiter(r.clients[sid], dir).value.capacity - TokensNow(r, dir, sid)
    ensures exists acts :: Exceeds(r, acts, dir, sid)
  {
    hide Metered, RunActs, Do, OutputBetween, Held, TokensNow, Earned, Limiter, Exceeds;
    var n, wait, burst := BurstAfter(RunActs(r, first), dir, sid, key, r.clock);
    RunsConcat(r, first, burst);
    LateBurstExceeds(r, RunActs(r, first), first + burst, dir, sid, key, n, wait, spent);
  }

  /** Puts out the held packet and, once the limiter is full, as much as its capacity. */
  lemma BurstAfter(r: RelayState, dir: Direction, sid: HandlerId, key: uint32, from: real)
    returns (n: nat, wait: real, acts: seq<Act>)
    requires Metered(r) && Live(r, dir, sid, key) && Held(r, dir, sid) > 0 && from <= r.clock
    ensures var t, b := RunActs(r, acts), Limiter(r.clients[sid], dir).value;
            && b.capacity == (n * CHUNK) as real
            && t.clock == r.clock + wait && Earned(b.rate, wait) == b.capacity - TokensNow(r, dir, sid)
            && OutputBetween(t.log, dir, sid, from, t.clock)
               == OutputBetween(r.log, dir, sid, from, t.clock) + Held(r, dir, sid) + n * CHUNK
  {
    assert Limited(r, dir, sid);
    hide Metered, RunActs, Do, Excess, OutputBetween, Held, TokensNow, Earned, Live, Limiter, Limited;
    LimiterInRange(r, dir, sid);
    n := CapacityInChunks(r, dir, sid);
    wait := WaitToFill(r, dir, sid);
    acts := Excess(r, dir, sid, key, Addr(0, 0), n);
    ExcessPutsOut(r, dir, sid, key, Addr(0, 0), n, wait, from);
  }

  lemma LateBurstExceeds(
    r: RelayState, s: RelayState, acts: seq<Act>, dir: Direction, sid: HandlerId, key: uint32,
    n: nat, wait: real, spent: real)
    requires Limited(r, dir, sid) && Prepared(r, s, dir, sid, key, spent)
    requires var t, b := RunActs(r, acts), Limiter(r.clients[sid], dir).value;
             && b.capacity == (n * CHUNK) as real
             && t.clock == s.clock + wait && Earned(b.rate, wait) == b.capacity - TokensNow(s, dir, sid)
             && Held(r, dir, sid) as real > b.capacity - TokensNow(r, dir, sid)
             && Held(r, dir, sid) as real > spent
             && OutputBetween(t.log, dir, sid, r.clock, t.clock)
                == OutputBetween(s.log, dir, sid, r.clock, t.clock) + Held(r, dir, sid) + n * CHUNK
    ensures Exceeds(r, acts, dir, sid)
  {
    hide Metered, RunActs, OutputBetween, Held, TokensNow, Earned, Limiter;
    var t, b := RunActs(r, acts), Limiter(r.clients[sid], dir).value;
    Elapse(b.rate, r.clock, s.clock, t.clock);
    assert t.clock - s.clock == wait;
    assert OutputSince(r, t, dir, sid) == Held(r, dir, sid) + n * CHUNK;
  }

  lemma SomeExcess(r: RelayState, dir: Direction, sid: HandlerId, key: uint32)
    requires Metered(r) && Live(r, dir, sid, key)
    requires Held(r, dir, sid) as real > Limiter(r.clients[sid], dir).value.capacity - TokensNow(r, dir, sid)
    ensures exists acts :: Exceeds(r, acts, dir, sid)
  {
    LimiterInRange(r, dir, sid);
    hide Metered, OutputBetween, Held, TokensNow;
    assert RunActs(r, []) == r;
    assert Earned(Limiter(r.clients[sid], dir).value.rate, r.clock - r.clock) == 0.0;
    assert Prepared(r, r, dir, sid, key, 0.0);
    ExcessAfter(r, [], dir, sid, key, 0.0);
  }

  lemma WaitToFill(r: RelayState, dir: Direction, sid: HandlerId) returns (wait: real)
    requires Limited(r, dir, sid)
    requires var b := Limiter(r.clients[sid], dir).value; b.rate > 0.0 && TokensNow(r, dir, sid) <= b.capacity
    ensures var b := Limiter(r.clients[sid], dir).value;
            && wait >= 0.0 && wait == (b.capacity - TokensNow(r, dir, sid)) / b.rate
            && Earned(b.rate, wait) == b.capacity - TokensNow(r, dir, sid)
  {
    hide Earned, TokensNow, Limiter;
    var b := Limiter(r.clients[sid], dir).value;
    wait := (b.capacity - TokensNow(r, dir, sid)) / b.rate;
    DivideBack(b.capacity - TokensNow(r, dir, sid), b.rate);
  }

  lemma NoExcess(r: RelayState, acts: seq<Act>, dir: Direction, sid: HandlerId)
    requires Addressed(r) && Metered(r) && Limited(r, dir, sid)
    requires Held(r, dir, sid) as real <= Limiter(r.clients[sid], dir).value.capacity - TokensNow(r, dir, sid)
    ensures !Exceeds(r, acts, dir, sid)
  {
    hide Addressed, Metered, RunActs, OutputBetween, Held, TokensNow, Earned;
    var t, b := RunActs(r, acts), Limiter(r.clients[sid], dir).value;
    OutputAfterState(r, acts, dir, sid, r.clock, t.clock);
    LimiterInRange(t, dir, sid);
    Unmix(OutputBetween(t.log, dir, sid, r.clock, t.clock), Held(t, dir, sid), TokensNow(t, dir, sid),
          OutputBetween(r.log, dir, sid, r.clock, t.clock), Held(r, dir, sid), TokensNow(r, dir, sid),
          b.capacity, Earned(b.rate, t.clock - r.clock));
    hide Limiter;
  }

  lemma Unmix(out: nat, held: nat, tokens: real, out0: nat, held0: nat, tokens0: real, capacity: real, earned: real)
    requires (out + held) as real + tokens <= (out0 + held0) as real + tokens0 + earned
    requires tokens >= 0.0 && held0 as real <= capacity - tokens0
    ensures !((out - out0) as real > capacity + earned)
  {
  }

  // ---------- A client that has not been heard from ----------

  predicate IsUpAct(act: Act) {
    act.Tick? || act.ReceiveUp? || act.AdmitUp? || act.StoreUp? || act.WriteUp?
  }

  /** The data loop leaves alone what the TUN loop works with, but for the client addresses. */
  lemma UpActLeavesDown(r: RelayState, act: Act, sid: HandlerId, from: real, to: real)
    requires IsUpAct(act) && sid in r.clients
    ensures var t := Do(r, act);
            && t.server == r.server && t.down == r.down && sid in t.clients
            && t.clients[sid].down == r.clients[sid].down
            && OutputBetween(t.log, Down, sid, from, to) == OutputBetween(r.log, Down, sid, from, to)
  {
    hide OutputBetween, AllowOn, AskEvents, Calls, AsksFor;
    LogGrows(r, act);
    OutputAppend(r.log, NewEvents(r, act), Down, sid, from, to);
    NewEventsOf(r, act, Down, sid, from, to);
    if act.WriteUp? {
      WrittenIsNotSent(r, sid, from, to);
    }
  }

  lemma WrittenIsNotSent(r: RelayState, sid: HandlerId, from: real, to: real)
    ensures OutputBetween(NewEvents(r, WriteUp), Down, sid, from, to) == 0
  {
    var e := NewEvents(r, WriteUp);
    if e != [] {
      assert e == [e[0]];
      SingleEvent(e[0], Down, sid, from, to);
    }
  }

  lemma {:induction false} UpActsLeaveDown(r: RelayState, acts: seq<Act>, sid: HandlerId)
    requires sid in r.clients && forall k | 0 <= k < |acts| :: IsUpAct(acts[k])
    ensures var t := RunActs(r, acts);
            && t.server == r.server && t.down == r.down && sid in t.clients
            && t.clients[sid].down == r.clients[sid].down
            && forall from, to :: OutputBetween(t.log, Down, sid, from, to) == OutputBetween(r.log, Down, sid, from, to)
    decreases |acts|
  {
    hide Do, OutputBetween;
    if acts != [] {
      var n := |acts| - 1;
      UpActsLeaveDown(r, acts[..n], sid);
      forall from, to
        ensures OutputBetween(RunActs(r, acts).log, Down, sid, from, to) == OutputBetween(r.log, Down, sid, from, to)
      {
        UpActLeavesDown(RunActs(r, acts[..n]), acts[n], sid, from, to);
      }
      UpActLeavesDown(RunActs(r, acts[..n]), acts[n], sid, 0.0, 0.0);
    }
  }

  /** Lets the data loop finish the packet it is at, if any. */
  const DRAIN := [AdmitUp, StoreUp, WriteUp]

  lemma DrainFinishes(r: RelayState, sid: HandlerId)
    requires Addressed(r) && Metered(r) && Limited(r, Up, sid)
    ensures var t := RunActs(r, DRAIN);
            && t.up.UpIdle? && t.clock == r.clock && Limited(t, Up, sid)
            && (t.clients[sid].addr.Some?
                || (!AboutToHear(r, sid) && TokensNow(t, Up, sid) == TokensNow(r, Up, sid)))
  {
    assert !r.up.UpIdle? ==> r.up.sid in r.clients;
    LimiterInRange(r, Up, sid);
    hide Addressed, Metered, RunActs, Do, TokensNow;
    RunsTwo(r, AdmitUp, StoreUp);
    RunsConcat(r, [AdmitUp, StoreUp], [WriteUp]);
    RunsOne(RunActs(r, [AdmitUp, StoreUp]), WriteUp);
    assert DRAIN == [AdmitUp, StoreUp] + [WriteUp];
    DrainDoes(r, sid);
  }

  lemma DrainDoes(r: RelayState, sid: HandlerId)
    requires !r.up.UpIdle? ==> r.up.sid in r.clients
    requires Refilling(r, Up, sid)
    ensures var t := Do(Do(Do(r, AdmitUp), StoreUp), WriteUp);
            && t.up.UpIdle? && t.clock == r.clock && Limited(t, Up, sid)
            && (t.clients[sid].addr.Some?
                || (!AboutToHear(r, sid) && TokensNow(t, Up, sid) == TokensNow(r, Up, sid)))
  {
    if r.up.UpFound? && r.up.sid == sid {
      AskingSpends(Limiter(r.clients[sid], Up).value, |r.up.pkt|, r.clock);
    }
    hide AllowOn, Refill, AskEvents;
  }

  /** Waits, and lets the data loop admit the smallest packet and store where it came from. */
  function Hear(key: uint32, wait: real): seq<Act> {
    [Tick(wait)] + Fetch(Up, key, Addr(0, 0), SMALLEST) + [StoreUp]
  }

  lemma HearPath(r: RelayState, key: uint32, wait: real)
    ensures RunActs(r, Hear(key, wait))
         == Do(RunActs(Do(r, Tick(wait)), Fetch(Up, key, Addr(0, 0), SMALLEST)), StoreUp)
    ensures forall k | 0 <= k < |Hear(key, wait)| :: IsUpAct(Hear(key, wait)[k])
  {
    var fetch := Fetch(Up, key, Addr(0, 0), SMALLEST);
    hide RunActs, Do;
    RunsConcat(r, [Tick(wait)] + fetch, [StoreUp]);
    RunsConcat(r, [Tick(wait)], fetch);
    RunsOne(r, Tick(wait));
    RunsOne(RunActs(r, [Tick(wait)] + fetch), StoreUp);
  }

  /** With an idle data loop the client is heard from as soon as its smallest packet is admitted. */
  lemma HearingWorks(r: RelayState, sid: HandlerId, key: uint32) returns (wait: real, spent: real)
    requires Metered(r) && Entered(r, Up, sid, key) && r.up.UpIdle?
    ensures var t, lack := RunActs(r, Hear(key, wait)), SMALLEST as real - TokensNow(r, Up, sid);
            && sid in t.clients && t.clients[sid].addr.Some? && t.clock == r.clock + wait && wait >= 0.0
            && Earned(Limiter(r.clients[sid], Up).value.rate, wait) == spent
            && spent == if lack > 0.0 then lack else 0.0
  {
    hide Metered, Earned, Refill, OutputBetween, Fetch, TokensNow, Limiter, RunActs, Hear;
    wait, spent := WaitForSmallest(r, sid, key);
    HearPath(r, key, wait);
    FetchHolds(r.(clock := r.clock + wait), Up, sid, key, Addr(0, 0), SMALLEST, 0.0, 0.0);
    hide Refilling;
  }

  /** Waiting until the limiter admits the smallest packet. */
  lemma WaitForSmallest(r: RelayState, sid: HandlerId, key: uint32) returns (wait: real, spent: real)
    requires Metered(r) && Entered(r, Up, sid, key)
    ensures var t, lack := r.(clock := r.clock + wait), SMALLEST as real - TokensNow(r, Up, sid);
            && wait >= 0.0 && Refilling(t, Up, sid) && TokensNow(t, Up, sid) >= SMALLEST as real
            && Earned(Limiter(r.clients[sid], Up).value.rate, wait) == spent
            && spent == if lack > 0.0 then lack else 0.0
  {
    LimiterInRange(r, Up, sid);
    var n := CapacityInChunks(r, Up, sid);
    hide Metered, Earned;
    var b, lack := Limiter(r.clients[sid], Up).value, SMALLEST as real - TokensNow(r, Up, sid);
    assert b.capacity >= SMALLEST as real;
    spent := if lack > 0.0 then lack else 0.0;
    DivideBack(spent, b.rate);
    wait := spent / b.rate;
    assert r.clock + wait - r.clock == wait;
    WaitingRefills(b, r.clock, r.clock + wait);
    hide Refill;
  }

  lemma PreparedByUpActs(r: RelayState, acts: seq<Act>, sid: HandlerId, key: uint32, spent: real)
    requires Addressed(r) && Metered(r) && Entered(r, Down, sid, key)
    requires forall k | 0 <= k < |acts| :: IsUpAct(acts[k])
    requires var s := RunActs(r, acts);
             && sid in s.clients && s.clients[sid].addr.Some? && s.clock >= r.clock
             && Earned(Limiter(r.clients[sid], Down).value.rate, s.clock - r.clock) == spent
    ensures Prepared(r, RunActs(r, acts), Down, sid, key, spent)
  {
    hide Metered, Addressed, RunActs, OutputBetween, Earned, TokensNow;
    var s := RunActs(r, acts);
    LimiterInRange(r, Down, sid);
    UpActsLeaveDown(r, acts, sid);
    RunsKeepMetered(r, acts);
    TokensLater(r, s, Down, sid);
    assert Live(s, Down, sid, key) && Held(s, Down, sid) == Held(r, Down, sid);
    hide Live, Entered, Held, Limiter;
  }

  /** Where the limiter has not been asked, the time that passed refilled it. */
  lemma TokensLater(r: RelayState, s: RelayState, dir: Direction, sid: HandlerId)
    requires Refilling(r, dir, sid) && sid in s.clients && r.clock <= s.clock
    requires Limiter(s.clients[sid], dir) == Limiter(r.clients[sid], dir)
    ensures var b := Limiter(r.clients[sid], dir).value;
            || TokensNow(s, dir, sid) == b.capacity
            || TokensNow(s, dir, sid) == TokensNow(r, dir, sid) + Earned(b.rate, s.clock - r.clock)
  {
    hide Earned;
    WaitingRefills(Limiter(r.clients[sid], dir).value, r.clock, s.clock);
    hide Refill;
  }

  /** Both limiters of a session have the same rate. */
  lemma SameRates(r: RelayState, sid: HandlerId)
    requires Metered(r) && Limited(r, Down, sid)
    ensures Limited(r, Up, sid)
    ensures Limiter(r.clients[sid], Up).value.rate == Limiter(r.clients[sid], Down).value.rate
  {
    assert LimiterOk(r, Up, sid) && LimiterOk(r, Down, sid);
    LimiterInRange(r, Down, sid);
    LimiterInRange(r, Up, sid);
    hide LimiterOk;
  }

  /** The client can be heard from at once, or after what its limiter lacks for the smallest packet. */
  lemma HeardSoon(r: RelayState, sid: HandlerId, key: uint32) returns (acts: seq<Act>, spent: real)
    requires Addressed(r) && Metered(r) && Entered(r, Down, sid, key) && Limited(r, Up, sid)
    ensures forall k | 0 <= k < |acts| :: IsUpAct(acts[k])
    ensures var t := RunActs(r, acts);
            && sid in t.clients && t.clients[sid].addr.Some? && t.clock >= r.clock
            && Earned(Limiter(r.clients[sid], Down).value.rate, t.clock - r.clock) == spent
    ensures spent > 0.0 ==> !AboutToHear(r, sid) && spent == SMALLEST as real - TokensNow(r, Up, sid)
  {
    hide Addressed, Metered, RunActs, OutputBetween, TokensNow, Earned, DRAIN;
    var t := RunActs(r, DRAIN);
    DrainFinishes(r, sid);
    DrainIsUp();
    UpActsLeaveDown(r, DRAIN, sid);
    RunsKeepMetered(r, DRAIN);
    assert Entered(t, Down, sid, key);
    assert Limiter(t.clients[sid], Down) == Limiter(r.clients[sid], Down);
    hide *;
    if t.clients[sid].addr.Some? {
      acts, spent := DRAIN, 0.0;
      NoTimeEarnsNothing(Limiter(r.clients[sid], Down).value.rate, r.clock);
    } else {
      var more: seq<Act>;
      more, spent := HeardWhenIdle(t, sid, key);
      UpActsConcat(DRAIN, more);
      acts := DRAIN + more;
      RunsConcat(r, DRAIN, more);
    }
  }

  lemma HeardWhenIdle(r: RelayState, sid: HandlerId, key: uint32) returns (acts: seq<Act>, spent: real)
    requires Metered(r) && Entered(r, Down, sid, key) && r.up.UpIdle?
    ensures forall k | 0 <= k < |acts| :: IsUpAct(acts[k])
    ensures Limited(r, Down, sid) && Limited(r, Up, sid)
    ensures var t, lack := RunActs(r, acts), SMALLEST as real - TokensNow(r, Up, sid);
            && sid in t.clients && t.clients[sid].addr.Some? && t.clock >= r.clock
            && Earned(Limiter(r.clients[sid], Down).value.rate, t.clock - r.clock) == spent
            && spent == if lack > 0.0 then lack else 0.0
  {
    SameRates(r, sid);
    assert Entered(r, Up, sid, key);
    hide *;
    var wait: real;
    wait, spent := HearingWorks(r, sid, key);
    acts := Hear(key, wait);
    HearPath(r, key, wait);
    assert RunActs(r, acts).clock - r.clock == wait;
  }

  lemma UpActsConcat(a: seq<Act>, b: seq<Act>)
    requires forall k | 0 <= k < |a| :: IsUpAct(a[k])
    requires forall k | 0 <= k < |b| :: IsUpAct(b[k])
    ensures forall k | 0 <= k < |a + b| :: IsUpAct((a + b)[k])
  {
  }

  lemma NoTimeEarnsNothing(rate: real, now: real)
    ensures Earned(rate, now - now) == 0.0
  {
  }

  /** The client of a held packet can be heard from soon enough. */
  lemma UnheardExceeds(r: RelayState, sid: HandlerId, key: uint32)
    requires Addressed(r) && Metered(r) && Entered(r, Down, sid, key) && Limited(r, Up, sid)
    requires Held(r, Down, sid) as real > Limiter(r.clients[sid], Down).value.capacity - TokensNow(r, Down, sid)
    requires AboutToHear(r, sid) || Held(r, Down, sid) as real > SMALLEST as real - TokensNow(r, Up, sid)
    ensures exists acts :: Exceeds(r, acts, Down, sid)
  {
    assert Limited(r, Down, sid);
    hide *;
    LimiterInRange(r, Down, sid);
    var acts, spent := HeardSoon(r, sid, key);
    PreparedByUpActs(r, acts, sid, key, spent);
    ExcessAfter(r, acts, Down, sid, key, spent);
  }

  lemma DrainIsUp()
    ensures forall k | 0 <= k < |DRAIN| :: IsUpAct(DRAIN[k])
  {
  }

  /** An unheard client's packet is held in state `r`. */
  predicate HeldUnheard(r: RelayState, sid: HandlerId) {
    && Limited(r, Up, sid) && Limited(r, Down, sid)
    && r.clients[sid].addr.None? && r.down.DownAdmitted? && r.down.sid == sid
  }

  /**
   What a continuation keeps when the packet held in `r` is too small to wait for its client. Nothing
   is sent until the client is heard from, which takes a packet of its own; until then the packet is
   still held or was dropped. Afterwards the plain bound holds with room for what is held.
   */
  ghost predicate WithinPlain(r: RelayState, t: RelayState, sid: HandlerId, from: real, to: real)
    requires Limited(r, Up, sid) && Limited(r, Down, sid)
  {
    && Limited(t, Up, sid) && Limited(t, Down, sid) && t.clock >= r.clock
    && var b := Limiter(r.clients[sid], Down).value;
       var earned := Earned(b.rate, t.clock - r.clock);
       var out := OutputBetween(t.log, Down, sid, from, to) - OutputBetween(r.log, Down, sid, from, to);
       if t.clients[sid].addr.None? then
         && out == 0
         && (t.down == r.down || Held(t, Down, sid) as real + TokensNow(t, Down, sid) <= b.capacity + earned)
         && TokensNow(t, Up, sid) <= TokensNow(r, Up, sid) + earned
         && (AboutToHear(t, sid) ==> SMALLEST as real <= TokensNow(r, Up, sid) + earned)
       else out as real + Held(t, Down, sid) as real + TokensNow(t, Down, sid) <= b.capacity + earned
  }

  /** How a step can change whether a client has been heard from, or is about to be. */
  lemma StepOnHearing(r: RelayState, act: Act, sid: HandlerId)
    requires Addressed(r) && Metered(r) && Limited(r, Up, sid)
    ensures var t := Do(r, act);
            && sid in t.clients
            && (r.clients[sid].addr.Some? ==> t.clients[sid].addr.Some?)
            && (r.clients[sid].addr.None? && t.clients[sid].addr.Some? ==>
                  AboutToHear(r, sid) && t.clock == r.clock && t.down == r.down)
            && (AboutToHear(t, sid) ==> AboutToHear(r, sid) || TokensNow(r, Up, sid) >= SMALLEST as real)
  {
    if act.Session? {
      SessionsLeaveLoops(r, act, sid);
      hide Addressed, Metered, TokensNow, Do;
    } else if act.AdmitUp? {
      if AboutToHear(Do(r, act), sid) && !AboutToHear(r, sid) {
        AdmittedIsNotSmall(r, sid);
      }
      hide Addressed, Metered, TokensNow, Ask, AskEvents;
    } else {
      hide Addressed, Metered, TokensNow, Sessions.Apply, AllowOn;
    }
  }

  lemma AdmittedIsNotSmall(r: RelayState, sid: HandlerId)
    requires Addressed(r) && Metered(r) && Limited(r, Up, sid)
    requires AboutToHear(Do(r, AdmitUp), sid) && !AboutToHear(r, sid)
    ensures TokensNow(r, Up, sid) >= SMALLEST as real
  {
    assert r.up.UpFound? && r.up.sid == sid && |r.up.pkt| >= SMALLEST;
    LimiterInRange(r, Up, sid);
    hide Addressed, Metered;
    AskingSpends(Limiter(r.clients[sid], Up).value, |r.up.pkt|, r.clock);
    hide AllowOn, Refill;
  }

  /** Nothing is sent to a client that has not been heard from; its held packet stays or is dropped. */
  lemma StepOnHeld(r: RelayState, act: Act, sid: HandlerId, from: real, to: real)
    requires Metered(r) && Limited(r, Down, sid) && r.clients[sid].addr.None?
    ensures OutputBetween(NewEvents(r, act), Down, sid, from, to) == 0
    ensures r.down.DownAdmitted? && r.down.sid == sid ==>
              Do(r, act).down == r.down || Held(Do(r, act), Down, sid) == 0
  {
    assert SendsToKnown(r);
    hide Metered, OutputBetween, Sessions.Apply, AllowOn;
    NewEventsOf(r, act, Down, sid, from, to);
    if act.WriteUp? {
      WrittenIsNotSent(r, sid, from, to);
    } else if act.SendDown? {
      SentToOthers(r, sid, from, to);
    }
  }

  lemma SentToOthers(r: RelayState, sid: HandlerId, from: real, to: real)
    requires r.down.DownSending? ==> r.down.sid != sid
    ensures OutputBetween(NewEvents(r, SendDown), Down, sid, from, to) == 0
  {
    var e := NewEvents(r, SendDown);
    if e != [] {
      assert e == [e[0]];
      SingleEvent(e[0], Down, sid, from, to);
    }
  }

  lemma StepKeepsPlain(r: RelayState, t: RelayState, act: Act, sid: HandlerId, from: real, to: real)
    requires Metered(r) && HeldUnheard(r, sid) && Addressed(t) && Metered(t)
    requires Held(r, Down, sid) as real <= SMALLEST as real - TokensNow(r, Up, sid)
    requires WithinPlain(r, t, sid, from, to) && SameRate(r, t, sid)
    ensures WithinPlain(r, Do(t, act), sid, from, to) && SameRate(r, Do(t, act), sid)
  {
    var u := Do(t, act);
    hide Addressed, Metered, Do, NewEvents, OutputBetween, Held, TokensNow, Earned, WithinPlain;
    PlainIsLimited(r, t, sid, from, to);
    SameRates(t, sid);
    StepSpends(t, act, Down, sid, from, to);
    StepEarns(t, act, Up, sid);
    StepOnHearing(t, act, sid);
    if t.clients[sid].addr.None? {
      StepOnHeld(t, act, sid, from, to);
    }
    StepKeepsMetered(t, act);
    LimiterInRange(u, Down, sid);
    LogGrows(t, act);
    OutputAppend(t.log, NewEvents(t, act), Down, sid, from, to);
    PlainMoves(r, t, u, sid, from, to, OutputBetween(NewEvents(t, act), Down, sid, from, to));
  }

  lemma PlainIsLimited(r: RelayState, t: RelayState, sid: HandlerId, from: real, to: real)
    requires Limited(r, Up, sid) && Limited(r, Down, sid) && WithinPlain(r, t, sid, from, to)
    ensures Limited(t, Up, sid) && Limited(t, Down, sid)
  {
  }

  /** The limiter's parameters are those it had in `r`. */
  predicate SameRate(r: RelayState, t: RelayState, sid: HandlerId)
    requires Limited(r, Down, sid)
  {
    && Limited(t, Down, sid)
    && Limiter(t.clients[sid], Down).value.rate == Limiter(r.clients[sid], Down).value.rate
    && Limiter(t.clients[sid], Down).value.capacity == Limiter(r.clients[sid], Down).value.capacity
  }

  lemma PlainMoves(
    r: RelayState, t: RelayState, u: RelayState, sid: HandlerId, from: real, to: real, out: nat)
    requires HeldUnheard(r, sid) && Held(r, Down, sid) as real <= SMALLEST as real - TokensNow(r, Up, sid)
    requires WithinPlain(r, t, sid, from, to) && SameRate(r, t, sid) && SameRate(r, u, sid)
    requires Limited(u, Up, sid) && u.clock >= t.clock
    requires OutputBetween(u.log, Down, sid, from, to) == OutputBetween(t.log, Down, sid, from, to) + out
    requires var b := Limiter(r.clients[sid], Down).value;
             var earned := Earned(b.rate, u.clock - t.clock);
             && b.rate > 0.0
             && TokensNow(u, Down, sid) <= b.capacity
             && out as real + Held(u, Down, sid) as real + TokensNow(u, Down, sid)
                <= Held(t, Down, sid) as real + TokensNow(t, Down, sid) + earned
             && TokensNow(u, Up, sid) <= TokensNow(t, Up, sid) + earned
    requires t.clients[sid].addr.Some? ==> u.clients[sid].addr.Some?
    requires t.clients[sid].addr.None? ==>
               && out == 0
               && (u.clients[sid].addr.Some? ==> AboutToHear(t, sid) && u.clock == t.clock && u.down == t.down)
               && (t.down == r.down ==> u.down == t.down || Held(u, Down, sid) == 0)
    requires AboutToHear(u, sid) ==> AboutToHear(t, sid) || TokensNow(t, Up, sid) >= SMALLEST as real
    ensures WithinPlain(r, u, sid, from, to)
  {
    assert u.down == r.down ==> Held(u, Down, sid) == Held(r, Down, sid);
    hide OutputBetween, Held, TokensNow, Earned, Limiter, AboutToHear;
    var rate := Limiter(r.clients[sid], Down).value.rate;
    Elapse(rate, r.clock, t.clock, u.clock);
    Elapse(rate, r.clock, r.clock, u.clock);
  }

  lemma {:induction false} HeldUnheardStaysPlain(r: RelayState, acts: seq<Act>, sid: HandlerId, from: real, to: real)
    requires Addressed(r) && Metered(r) && HeldUnheard(r, sid) && !AboutToHear(r, sid)
    requires Held(r, Down, sid) as real <= SMALLEST as real - TokensNow(r, Up, sid)
    ensures WithinPlain(r, RunActs(r, acts), sid, from, to) && SameRate(r, RunActs(r, acts), sid)
    decreases |acts|
  {
    hide Addressed, Metered, Do, OutputBetween, Held, TokensNow, Earned;
    if acts == [] {
      NoTimeEarnsNothing(Limiter(r.clients[sid], Down).value.rate, r.clock);
    } else {
      var before := RunActs(r, acts[..|acts| - 1]);
      HeldUnheardStaysPlain(r, acts[..|acts| - 1], sid, from, to);
      RunsKeepMetered(r, acts[..|acts| - 1]);
      hide WithinPlain, SameRate;
      StepKeepsPlain(r, before, acts[|acts| - 1], sid, from, to);
    }
  }

  lemma UnheardNeverExceeds(r: RelayState, acts: seq<Act>, sid: HandlerId)
    requires Addressed(r) && Metered(r) && HeldUnheard(r, sid) && !AboutToHear(r, sid)
    requires Held(r, Down, sid) as real <= SMALLEST as real - TokensNow(r, Up, sid)
    ensures !Exceeds(r, acts, Down, sid)
  {
    hide Addressed, Metered, RunActs, OutputBetween, Held, TokensNow, Earned, Limiter, HeldUnheard;
    assert Limited(r, Down, sid) && Limited(r, Up, sid) by {
      HeldIsLimited(r, sid);
    }
    var t := RunActs(r, acts);
    HeldUnheardStaysPlain(r, acts, sid, r.clock, t.clock);
    RunsKeepMetered(r, acts);
    LimiterInRange(r, Down, sid);
    LimiterInRange(t, Down, sid);
    Elapse(Limiter(r.clients[sid], Down).value.rate, r.clock, r.clock, t.clock);
  }

  lemma HeldIsLimited(r: RelayState, sid: HandlerId)
    requires HeldUnheard(r, sid)
    ensures Limited(r, Down, sid) && Limited(r, Up, sid)
  {
  }

  // ---------- The exact condition ----------

  /** The session is in the session map. */
  predicate HasEntry(r: RelayState, sid: HandlerId) {
    exists key :: key in r.server.sessions && r.server.sessions[key] == sid
  }

  /** What a caller can check in a state: whether some continuation exceeds the plain bound. */
  predicate CanExceed(r: RelayState, dir: Direction, sid: HandlerId)
    requires Limited(r, dir, sid)
  {
    && HasEntry(r, sid)
    && Held(r, dir, sid) as real > Limiter(r.clients[sid], dir).value.capacity - TokensNow(r, dir, sid)
    && match dir
       case Up => r.hasTun
       case Down =>
         || r.clients[sid].addr.Some?
         || AboutToHear(r, sid)
         || (Limited(r, Up, sid) && Held(r, Down, sid) as real > SMALLEST as real - TokensNow(r, Up, sid))
  }

  /**
   Some continuation of a state exceeds the plain bound, capacity + rate * (time since that state), if
   and only if the session still has an entry, the packet held is larger than what the limiter lacks
   to be full, and the packet can be put out: there is a TUN device, or the client has been heard from,
   or is about to be, or the held packet is larger than what the other limiter lacks for the smallest
   packet the client could send.
   */
  lemma PlainBoundFailsIff(r: RelayState, dir: Direction, sid: HandlerId)
    requires Addressed(r) && Metered(r) && Limited(r, dir, sid)
    ensures (exists acts :: Exceeds(r, acts, dir, sid)) <==> CanExceed(r, dir, sid)
  {
    if CanExceed(r, dir, sid) {
      SomeoneExceeds(r, dir, sid);
    } else {
      forall acts
        ensures !Exceeds(r, acts, dir, sid)
      {
        NobodyExceeds(r, acts, dir, sid);
      }
    }
    hide *;
  }

  lemma SomeoneExceeds(r: RelayState, dir: Direction, sid: HandlerId)
    requires Addressed(r) && Metered(r) && Limited(r, dir, sid) && CanExceed(r, dir, sid)
    ensures exists acts :: Exceeds(r, acts, dir, sid)
  {
    hide Addressed, Metered, Held, TokensNow, Exceeds;
    var key :| key in r.server.sessions && r.server.sessions[key] == sid;
    if HasOutlet(r, dir, sid) {
      SomeExcess(r, dir, sid, key);
    } else {
      SameRates(r, sid);
      UnheardExceeds(r, sid, key);
    }
  }

  lemma NobodyExceeds(r: RelayState, acts: seq<Act>, dir: Direction, sid: HandlerId)
    requires Addressed(r) && Metered(r) && Limited(r, dir, sid) && !CanExceed(r, dir, sid)
    ensures !Exceeds(r, acts, dir, sid)
  {
    hide Addressed, TokensNow, Exceeds;
    LimiterInRange(r, dir, sid);
    if Held(r, dir, sid) as real <= Limiter(r.clients[sid], dir).value.capacity - TokensNow(r, dir, sid) {
      NoExcess(r, acts, dir, sid);
    } else if !HasEntry(r, sid) || dir.Up? {
      MuteNeverExceeds(r, acts, dir, sid);
    } else {
      SameRates(r, sid);
      assert SendsToKnown(r);
      UnheardNeverExceeds(r, acts, sid);
    }
  }


  // ---------- A run that exceeds the plain bound ----------

  /** Handler 0 connects and is registered with limiters of `mbps`. */
  function Enter(mbps: nat): seq<Act> {
    [Session(Accept(0), 0, 0.0), Session(AllocateIp(0), 0, 0.0), Session(RegisterSession(0), mbps, 0.0)]
  }

  lemma EnterRegisters(base: uint32, maxClient: ClientCount, clock: real, mbps: nat, dir: Direction)
    requires WellFormed(Fresh(base, maxClient)) && mbps > 0
    ensures var r := RunActs(Begin(base, maxClient, true, clock), Enter(mbps));
            && Entered(r, dir, 0, base + 2) && Idle(r, dir) && r.clock == clock && r.hasTun
            && Limiter(r.clients[0], dir) == Some(NewBucket(mbps, clock))
  {
    var r := Begin(base, maxClient, true, clock);
    AllocateGrantsFirstFromHint(r.server.pool, base + 2);
    AllocateGrantsFree(r.server.pool);
    EnterDoes(r, mbps);
    hide AllocateOn, WellFormed, RunActs, Do;
  }

  lemma EnterDoes(r: RelayState, mbps: nat)
    ensures var s := Sessions.Apply(Sessions.Apply(r.server, Accept(0)), AllocateIp(0));
            var t, limit := RunActs(r, Enter(mbps)), NewLimit(mbps, r.clock);
            && t.server == Sessions.Apply(s, RegisterSession(0))
            && t.clock == r.clock && t.hasTun == r.hasTun && t.up == r.up && t.down == r.down
            && (Enabled(s, RegisterSession(0)) ==> t.clients == r.clients[0 := Client(None, limit, limit)])
  {
    hide Sessions.Apply, Enabled, NewLimit, RunActs;
    var a, b, c := Enter(mbps)[0], Enter(mbps)[1], Enter(mbps)[2];
    RunsTwo(r, a, b);
    RunsConcat(r, [a, b], [c]);
    assert Enter(mbps) == [a, b] + [c];
    RunsOne(RunActs(r, [a, b]), c);
  }

  /** A packet is admitted and held for a second, in which the limiter fills up again. */
  lemma HeldWhileFilling(r: RelayState, dir: Direction, key: uint32, who: Addr, mbps: nat)
    requires Entered(r, dir, 0, key) && Idle(r, dir) && mbps > 0
    requires Limiter(r.clients[0], dir) == Some(NewBucket(mbps, r.clock))
    ensures var s := RunActs(r, Fetch(dir, key, who, CHUNK));
            var t := Do(s, Tick(1.0));
            && Entered(t, dir, 0, key) && Held(t, dir, 0) == CHUNK && t.clock == r.clock + 1.0 && t.hasTun == r.hasTun
            && TokensNow(t, dir, 0) == NewBucket(mbps, r.clock).capacity
            && Limiter(t.clients[0], dir).value.rate == NewBucket(mbps, r.clock).rate
            && Limiter(t.clients[0], dir).value.capacity == NewBucket(mbps, r.clock).capacity
  {
    var s := RunActs(r, Fetch(dir, key, who, CHUNK));
    NewBucketStartsHistories(mbps, r.clock);
    assert TokensNow(r, dir, 0) == NewBucket(mbps, r.clock).capacity;
    hide RunActs, NewBucket, TokensNow, Fetch;
    FetchHolds(r, dir, 0, key, who, CHUNK, 0.0, 0.0);
    hide AllowOn;
    FullInASecond(s, dir, 0);
  }

  lemma FullInASecond(r: RelayState, dir: Direction, sid: HandlerId)
    requires Refilling(r, dir, sid) && TokensNow(r, dir, sid) >= 0.0
    requires Limiter(r.clients[sid], dir).value.rate == Limiter(r.clients[sid], dir).value.capacity
    ensures var t := Do(r, Tick(1.0));
            && t == r.(clock := r.clock + 1.0)
            && TokensNow(t, dir, sid) == Limiter(r.clients[sid], dir).value.capacity
  {
    var b := Limiter(r.clients[sid], dir).value;
    assert Earned(b.rate, r.clock + 1.0 - r.clock) == b.rate;
    hide Earned;
    WaitingRefills(b, r.clock, r.clock + 1.0);
  }

  /** A run after which the session holds a packet beside a full limiter. */
  function Prelude(base: uint32, mbps: nat, dir: Direction): seq<Act>
    requires base + 2 < 0x1_0000_0000
  {
    Enter(mbps) + Fetch(dir, base + 2, Addr(0, 0), CHUNK) + [Tick(1.0)]
  }

  lemma PreludeHolds(base: uint32, maxClient: ClientCount, clock: real, mbps: nat, dir: Direction)
    requires WellFormed(Fresh(base, maxClient)) && mbps > 0
    ensures var t := RunActs(Begin(base, maxClient, true, clock), Prelude(base, mbps, dir));
            && Entered(t, dir, 0, base + 2) && Held(t, dir, 0) == CHUNK && t.clock == clock + 1.0 && t.hasTun
            && var b := Limiter(t.clients[0], dir).value;
               TokensNow(t, dir, 0) == b.capacity == b.rate == 125000.0 * mbps as real
  {
    var start, fetch := Begin(base, maxClient, true, clock), Fetch(dir, base + 2, Addr(0, 0), CHUNK);
    var r := RunActs(start, Enter(mbps));
    EnterRegisters(base, maxClient, clock, mbps, dir);
    HeldWhileFilling(r, dir, base + 2, Addr(0, 0), mbps);
    NewBucketStartsHistories(mbps, clock);
    RunsConcat(start, Enter(mbps) + fetch, [Tick(1.0)]);
    RunsConcat(start, Enter(mbps), fetch);
    RunsOne(RunActs(r, fetch), Tick(1.0));
    hide *;
  }

  /** Since `from`, session 0 put out more than the plain bound for its rate limit. */
  ghost predicate ExceedsFrom(r: RelayState, dir: Direction, from: real, mbps: nat) {
    var rate := 125000.0 * mbps as real;
    OutputBetween(r.log, dir, 0, from, r.clock) as real > rate + Earned(rate, r.clock - from)
  }

  /**
   The plain bound is not kept: for every pool, every rate limit and either direction, in some run a
   session puts out more than capacity + rate * (length of the window) in a window.
   */
  lemma PlainBoundIsExceeded(base: uint32, maxClient: ClientCount, clock: real, mbps: nat, dir: Direction)
    requires WellFormed(Fresh(base, maxClient)) && mbps > 0
    ensures exists acts :: ExceedsFrom(RunActs(Begin(base, maxClient, true, clock), acts), dir, clock + 1.0, mbps)
  {
    var start, first := Begin(base, maxClient, true, clock), Prelude(base, mbps, dir);
    var t := RunActs(start, first);
    PreludeHolds(base, maxClient, clock, mbps, dir);
    MeteredInEveryRun(base, maxClient, true, clock, first);
    PreludeCanExceed(t, dir, base + 2);
    PlainBoundFailsIff(t, dir, 0);
    hide *;
    var acts :| Exceeds(t, acts, dir, 0);
    SinceIsFrom(t, acts, dir, mbps);
    RunsConcat(start, first, acts);
    assert ExceedsFrom(RunActs(start, first + acts), dir, clock + 1.0, mbps);
  }

  lemma PreludeCanExceed(r: RelayState, dir: Direction, key: uint32)
    requires Metered(r) && Entered(r, dir, 0, key) && Held(r, dir, 0) == CHUNK && r.hasTun
    requires TokensNow(r, dir, 0) == Limiter(r.clients[0], dir).value.capacity
    ensures CanExceed(r, dir, 0)
  {
    hide Metered, Held, TokensNow;
    if dir.Down? {
      SameRates(r, 0);
      SmallPacketsDoNotDelay(r);
    }
  }

  lemma SmallPacketsDoNotDelay(r: RelayState)
    requires Metered(r) && Limited(r, Up, 0)
    ensures CHUNK as real > SMALLEST as real - TokensNow(r, Up, 0)
  {
    LimiterInRange(r, Up, 0);
  }

  lemma SinceIsFrom(r: RelayState, acts: seq<Act>, dir: Direction, mbps: nat)
    requires Limited(r, dir, 0) && Exceeds(r, acts, dir, 0)
    requires var b := Limiter(r.clients[0], dir).value; b.capacity == b.rate == 125000.0 * mbps as real
    ensures ExceedsFrom(RunActs(r, acts), dir, r.clock, mbps)
  {
    hide RunActs, OutputBetween, Earned, Limiter, Limited;
  }
}
