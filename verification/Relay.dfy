/**
 The two packet loops of server/daemon/daemon.go, interleaved with the session handlers and `Close`:
 who is sent what, and how much gets through a rate limit.
 */
module Relay {
  import opened Words
  import opened Wrappers
  import opened IpPool
  import opened PoolProperties
  import opened Packet
  import opened RateLimit
  import opened Sessions
  import opened Conn

  const PACKET_BUFFER := 1300 // shared.DefaultMTU + 100, the size of the buffers both loops read into

  type Pkt = p: seq<uint8> | |p| <= PACKET_BUFFER

  /** The fields of a session object that the loops use. */
  datatype Client = Client(addr: Option<Addr>, up: Option<Bucket>, down: Option<Bucket>)

  datatype Direction = Up | Down

  /** Where `dataReadLoop` is between two datagrams. */
  datatype UpLoop =
    | UpIdle
    | UpFound(sid: HandlerId, pkt: Pkt, from: Addr)
    | UpAdmitted(sid: HandlerId, pkt: Pkt, from: Addr)
    | UpStored(sid: HandlerId, pkt: Pkt)

  /** Where `tunReadLoop` is between two packets. */
  datatype DownLoop =
    | DownIdle
    | DownFound(sid: HandlerId, pkt: Pkt)
    | DownAdmitted(sid: HandlerId, pkt: Pkt)
    | DownSending(sid: HandlerId, pkt: Pkt, to: Addr)

  /** What happened so far, and when; an output is a packet written to TUN or sent to a client. */
  datatype Event =
    | Asked(dir: Direction, sid: HandlerId, size: nat, at: real) // a call of a limiter's Allow
    | Heard(sid: HandlerId, pkt: Pkt, from: Addr)                // a client packet was admitted
    | Output(dir: Direction, sid: HandlerId, pkt: Pkt, to: Option<Addr>, at: real)

  /** `limits` is each session's limiter as created, `None` for an unlimited user. */
  datatype RelayState = RelayState(
    server: Server,
    clients: map<HandlerId, Client>,
    limits: map<HandlerId, Option<Bucket>>,
    up: UpLoop,
    down: DownLoop,
    hasTun: bool,
    clock: real,
    log: seq<Event>)

  datatype Act =
    | Session(step: Step, rateLimit: int, age: real) // a step of a handler or of Close
    | Tick(elapsed: real)
    | ReceiveUp(pkt: Pkt, from: Addr)     // daemon.go:471-494
    | AdmitUp                             // daemon.go:497-501
    | StoreUp                             // daemon.go:504-506
    | WriteUp                             // daemon.go:508-513
    | ReceiveDown(tunPkt: Pkt)            // daemon.go:533-556
    | AdmitDown                           // daemon.go:559-563
    | LoadDown                            // daemon.go:565-569
    | SendDown                            // daemon.go:570

  function Begin(base: uint32, maxClient: ClientCount, hasTun: bool, clock: real): RelayState {
    RelayState(Start(base, maxClient), map[], map[], UpIdle, DownIdle, hasTun, clock, [])
  }

  /** The limiters of a new session: `None` unless the user's rate limit is positive. */
  function NewLimit(rateLimit: int, now: real): Option<Bucket> {
    if rateLimit > 0 then Some(NewBucket(rateLimit, now)) else None
  }

  /** Asks an optional limiter: its state afterwards and the answer. */
  function Ask(limiter: Option<Bucket>, n: nat, now: real): (Option<Bucket>, bool) {
    if limiter.None? then (None, true)
    else
      var (b, ok) := AllowOn(limiter.value, n, now);
      (Some(b), ok)
  }

  function AskEvents(limiter: Option<Bucket>, dir: Direction, sid: HandlerId, n: nat, now: real): seq<Event> {
    if limiter.None? then [] else [Asked(dir, sid, n, now)]
  }

  /**
   One step of the whole server; a step that is not enabled does nothing. A session's limiters are
   created `age` before the handler gets the lock to register it.
   */
  function Do(r: RelayState, act: Act): RelayState {
    match act
    case Session(step, rateLimit, age) =>
      var t := r.(server := Sessions.Apply(r.server, step));
      if step.RegisterSession? && Enabled(r.server, step) then
        var limit := NewLimit(rateLimit, r.clock - if age >= 0.0 then age else 0.0);
        t.(clients := r.clients[step.h := Client(None, limit, limit)], limits := r.limits[step.h := limit])
      else t
    case Tick(elapsed) => if elapsed >= 0.0 then r.(clock := r.clock + elapsed) else r
    case ReceiveUp(pkt, from) =>
      if !r.up.UpIdle? then r
      else
        var key := SrcIPUint32(pkt);
        if key.Err? || key.value !in r.server.sessions then r
        else r.(up := UpFound(r.server.sessions[key.value], pkt, from))
    case AdmitUp =>
      if !(r.up.UpFound? && r.up.sid in r.clients) then r
      else
        var UpFound(sid, pkt, from) := r.up;
        var c := r.clients[sid];
        var (limiter, ok) := Ask(c.up, |pkt|, r.clock);
        r.(clients := r.clients[sid := c.(up := limiter)],
           up := if ok then UpAdmitted(sid, pkt, from) else UpIdle,
           log := r.log + AskEvents(c.up, Up, sid, |pkt|, r.clock) + if ok then [Heard(sid, pkt, from)] else [])
    case StoreUp =>
      if !(r.up.UpAdmitted? && r.up.sid in r.clients) then r
      else
        var UpAdmitted(sid, pkt, from) := r.up;
        r.(clients := r.clients[sid := r.clients[sid].(addr := Some(from))], up := UpStored(sid, pkt))
    case WriteUp =>
      if !r.up.UpStored? then r
      else r.(up := UpIdle, log := r.log + if r.hasTun then [Output(Up, r.up.sid, r.up.pkt, None, r.clock)] else [])
    case ReceiveDown(pkt) =>
      if !r.down.DownIdle? then r
      else
        var key := DstIPUint32(pkt);
        if key.Err? || key.value !in r.server.sessions then r
        else r.(down := DownFound(r.server.sessions[key.value], pkt))
    case AdmitDown =>
      if !(r.down.DownFound? && r.down.sid in r.clients) then r
      else
        var DownFound(sid, pkt) := r.down;
        var c := r.clients[sid];
        var (limiter, ok) := Ask(c.down, |pkt|, r.clock);
        r.(clients := r.clients[sid := c.(down := limiter)],
           down := if ok then DownAdmitted(sid, pkt) else DownIdle,
           log := r.log + AskEvents(c.down, Down, sid, |pkt|, r.clock))
    case LoadDown =>
      if !(r.down.DownAdmitted? && r.down.sid in r.clients) then r
      else
        var DownAdmitted(sid, pkt) := r.down;
        r.(down := if r.clients[sid].addr.Some? then DownSending(sid, pkt, r.clients[sid].addr.value) else DownIdle)
    case SendDown =>
      if !r.down.DownSending? then r
      else r.(down := DownIdle, log := r.log + [Output(Down, r.down.sid, r.down.pkt, Some(r.down.to), r.clock)])
  }

  function RunActs(r: RelayState, acts: seq<Act>): RelayState {
    if acts == [] then r else Do(RunActs(r, acts[..|acts| - 1]), acts[|acts| - 1])
  }

  /** The data loop has admitted a packet of the session and is about to store its sender. */
  predicate AboutToHear(r: RelayState, sid: HandlerId) {
    r.up.UpAdmitted? && r.up.sid == sid
  }

  // ---------- Who is sent what ----------

  /** Before event `i`, a packet from `who` with source address `key` was admitted for session `sid`. */
  ghost predicate HeardBefore(log: seq<Event>, i: nat, sid: HandlerId, who: Addr, key: uint32) {
    exists j: nat :: j < i && j < |log| && log[j].Heard? && log[j].sid == sid && log[j].from == who
                     && SrcIPUint32(log[j].pkt) == Ok(key)
  }

  /** Event `i`, if it outputs a packet, has the packet of its session, and a justified target. */
  ghost predicate WellAddressed(r: RelayState, i: nat)
    requires i < |r.log|
  {
    var e := r.log[i];
    e.Output? ==>
      && e.sid in r.server.addressOf
      && (e.dir.Up? ==> SrcIPUint32(e.pkt) == Ok(r.server.addressOf[e.sid]))
      && (e.dir.Down? ==>
            && DstIPUint32(e.pkt) == Ok(r.server.addressOf[e.sid])
            && e.to.Some?
            && HeardBefore(r.log, i, e.sid, e.to.value, r.server.addressOf[e.sid]))
  }

  /** Session `sid` exists and its own address is `key`. */
  predicate Owns(r: RelayState, sid: HandlerId, key: Result<uint32, PacketError>) {
    sid in r.clients && sid in r.server.addressOf && key == Ok(r.server.addressOf[sid])
  }

  ghost predicate UpOk(r: RelayState) {
    match r.up
    case UpIdle => true
    case UpFound(sid, pkt, _) => Owns(r, sid, SrcIPUint32(pkt))
    case UpAdmitted(sid, pkt, from) =>
      Owns(r, sid, SrcIPUint32(pkt)) && HeardBefore(r.log, |r.log|, sid, from, r.server.addressOf[sid])
    case UpStored(sid, pkt) => Owns(r, sid, SrcIPUint32(pkt))
  }

  ghost predicate DownOk(r: RelayState) {
    match r.down
    case DownIdle => true
    case DownFound(sid, pkt) => Owns(r, sid, DstIPUint32(pkt))
    case DownAdmitted(sid, pkt) => Owns(r, sid, DstIPUint32(pkt))
    case DownSending(sid, pkt, to) =>
      Owns(r, sid, DstIPUint32(pkt)) && HeardBefore(r.log, |r.log|, sid, to, r.server.addressOf[sid])
  }

  /** A client address is one an admitted packet of that session came from. */
  ghost predicate AddressHeard(r: RelayState, sid: HandlerId)
    requires sid in r.clients && sid in r.server.addressOf
  {
    r.clients[sid].addr.Some? ==>
      HeardBefore(r.log, |r.log|, sid, r.clients[sid].addr.value, r.server.addressOf[sid])
  }

  ghost predicate Addressed(r: RelayState) {
    && Covered(r.server)
    && r.clients.Keys == r.server.addressOf.Keys
    && UpOk(r)
    && DownOk(r)
    && (forall sid | sid in r.clients :: AddressHeard(r, sid))
    && (forall i: nat | i < |r.log| :: WellAddressed(r, i))
  }

  /** The address of a session object never changes. */
  lemma AddressesStay(s: Server, step: Step)
    requires Covered(s)
    ensures var t := Sessions.Apply(s, step);
            && (forall h | h in s.addressOf :: h in t.addressOf && t.addressOf[h] == s.addressOf[h])
            && (if step.RegisterSession? && Enabled(s, step)
                then step.h !in s.addressOf && t.addressOf.Keys == s.addressOf.Keys + {step.h}
                else t.addressOf == s.addressOf)
  {
  }

  lemma HeardStays(log: seq<Event>, more: seq<Event>, i: nat, sid: HandlerId, who: Addr, key: uint32)
    requires HeardBefore(log, i, sid, who, key)
    ensures forall k: nat | k >= i :: HeardBefore(log + more, k, sid, who, key)
  {
    var j: nat :| j < i && j < |log| && log[j].Heard? && log[j].sid == sid && log[j].from == who
                  && SrcIPUint32(log[j].pkt) == Ok(key);
    assert (log + more)[j] == log[j];
  }

  /** Growing the log and the set of session objects keeps every address justified. */
  lemma GrowthKeeps(r: RelayState, t: RelayState, more: seq<Event>)
    requires Addressed(r)
    requires t.log == r.log + more
    requires forall h | h in r.server.addressOf ::
               h in t.server.addressOf && t.server.addressOf[h] == r.server.addressOf[h]
    ensures forall i: nat | i < |r.log| :: WellAddressed(t, i)
    ensures forall sid | sid in r.clients && sid in t.clients && t.clients[sid].addr == r.clients[sid].addr ::
              AddressHeard(t, sid)
    ensures t.clients.Keys >= r.clients.Keys && t.up == r.up ==> UpOk(t)
    ensures t.clients.Keys >= r.clients.Keys && t.down == r.down ==> DownOk(t)
  {
    forall i: nat | i < |r.log|
      ensures WellAddressed(t, i)
    {
      assert t.log[i] == r.log[i];
      assert WellAddressed(r, i);
      if r.log[i].Output? && r.log[i].dir.Down? {
        HeardStays(r.log, more, i, r.log[i].sid, r.log[i].to.value, r.server.addressOf[r.log[i].sid]);
      }
    }
    forall sid | sid in r.clients && sid in t.clients && t.clients[sid].addr == r.clients[sid].addr
      ensures AddressHeard(t, sid)
    {
      assert AddressHeard(r, sid);
      if r.clients[sid].addr.Some? {
        HeardStays(r.log, more, |r.log|, sid, r.clients[sid].addr.value, r.server.addressOf[sid]);
      }
    }
    if r.up.UpAdmitted? {
      HeardStays(r.log, more, |r.log|, r.up.sid, r.up.from, r.server.addressOf[r.up.sid]);
    }
    if r.down.DownSending? {
      HeardStays(r.log, more, |r.log|, r.down.sid, r.down.to, r.server.addressOf[r.down.sid]);
    }
  }

  lemma SessionKeepsAddressed(r: RelayState, step: Step, rateLimit: int, age: real)
    requires Addressed(r)
    ensures Addressed(Do(r, Session(step, rateLimit, age)))
  {
    var t := Do(r, Session(step, rateLimit, age));
    CoveredHolds(r.server, step);
    AddressesStay(r.server, step);
    hide Covered;
    hide Sessions.Apply;
    assert t.log == r.log + [];
    GrowthKeeps(r, t, []);
  }

  lemma AdmitUpKeepsAddressed(r: RelayState)
    requires Addressed(r)
    ensures Addressed(Do(r, AdmitUp))
  {
    hide Covered;
    hide Ask;
    var t := Do(r, AdmitUp);
    if t != r {
      var UpFound(sid, pkt, from) := r.up;
      var asked := AskEvents(r.clients[sid].up, Up, sid, |pkt|, r.clock);
      var more := asked + if t.up.UpAdmitted? then [Heard(sid, pkt, from)] else [];
      assert t.log == r.log + more;
      GrowthKeeps(r, t, more);
      if t.up.UpAdmitted? {
        assert t.log[|t.log| - 1] == Heard(sid, pkt, from);
      }
    }
  }

  lemma StepKeepsAddressed(r: RelayState, act: Act)
    requires Addressed(r)
    ensures Addressed(Do(r, act))
  {
    match act {
      case Session(step, rateLimit, age) =>
        SessionKeepsAddressed(r, step, rateLimit, age);
      case AdmitUp =>
        AdmitUpKeepsAddressed(r);
      case WriteUp =>
        WriteUpKeepsAddressed(r);
      case SendDown =>
        SendDownKeepsAddressed(r);
      case AdmitDown =>
        AdmitDownKeepsAddressed(r);
      case ReceiveUp(_, _) =>
        LookupKeepsAddressed(r, act);
      case ReceiveDown(_) =>
        LookupKeepsAddressed(r, act);
      case _ =>
        QuietKeepsAddressed(r, act);
    }
  }

  lemma WriteUpKeepsAddressed(r: RelayState)
    requires Addressed(r)
    ensures Addressed(Do(r, WriteUp))
  {
    hide Covered;
    var t := Do(r, WriteUp);
    var more :=
      if r.up.UpStored? && r.hasTun then [Output(Up, r.up.sid, r.up.pkt, None, r.clock)] else [];
    assert t.log == r.log + more;
    GrowthKeeps(r, t, more);
    hide HeardBefore;
    hide AddressHeard;
  }

  lemma SendDownKeepsAddressed(r: RelayState)
    requires Addressed(r)
    ensures Addressed(Do(r, SendDown))
  {
    hide Covered;
    hide HeardBefore;
    hide AddressHeard;
    var t := Do(r, SendDown);
    if t != r {
      var more := [Output(Down, r.down.sid, r.down.pkt, Some(r.down.to), r.clock)];
      assert t.log == r.log + more;
      GrowthKeeps(r, t, more);
      HeardStays(r.log, more, |r.log|, r.down.sid, r.down.to, r.server.addressOf[r.down.sid]);
      assert WellAddressed(t, |r.log|);
      hide WellAddressed;
    }
  }

  lemma AdmitDownKeepsAddressed(r: RelayState)
    requires Addressed(r)
    ensures Addressed(Do(r, AdmitDown))
  {
    hide Covered;
    hide Ask;
    var t := Do(r, AdmitDown);
    var more := t.log[|r.log|..];
    assert t.log == r.log + more;
    GrowthKeeps(r, t, more);
  }

  lemma QuietKeepsAddressed(r: RelayState, act: Act)
    requires Addressed(r)
    requires act.Tick? || act.StoreUp? || act.LoadDown?
    ensures Addressed(Do(r, act))
  {
    hide Covered;
    var t := Do(r, act);
    assert t.log == r.log + [];
    GrowthKeeps(r, t, []);
    hide WellAddressed;
    hide HeardBefore;
  }

  lemma LookupKeepsAddressed(r: RelayState, act: Act)
    requires Addressed(r) && (act.ReceiveUp? || act.ReceiveDown?)
    ensures Addressed(Do(r, act))
  {
    hide WellFormed;
    var t := Do(r, act);
    assert t.log == r.log + [];
    GrowthKeeps(r, t, []);
    hide WellAddressed;
    hide HeardBefore;
    hide AddressHeard;
  }

  lemma {:induction false} AddressedInEveryRun(
    base: uint32, maxClient: ClientCount, hasTun: bool, clock: real, acts: seq<Act>)
    requires WellFormed(Fresh(base, maxClient))
    ensures Addressed(RunActs(Begin(base, maxClient, hasTun, clock), acts))
    decreases |acts|
  {
    hide Addressed;
    var r := Begin(base, maxClient, hasTun, clock);
    if acts == [] {
      BeginsAddressed(base, maxClient, hasTun, clock);
    } else {
      AddressedInEveryRun(base, maxClient, hasTun, clock, acts[..|acts| - 1]);
      StepKeepsAddressed(RunActs(r, acts[..|acts| - 1]), acts[|acts| - 1]);
    }
  }

  lemma BeginsAddressed(base: uint32, maxClient: ClientCount, hasTun: bool, clock: real)
    requires WellFormed(Fresh(base, maxClient))
    ensures Addressed(Begin(base, maxClient, hasTun, clock))
  {
    StartIsExclusive(base, maxClient);
  }

  /**
   In every interleaving, each packet sent to a client goes to the session whose own address is the
   packet's destination, at a network address from which a packet with that source address was
   admitted earlier for the same session, even if the session is removed and its address handed out
   again between lookup and use.
   */
  lemma SendsReachTheOwner(base: uint32, maxClient: ClientCount, hasTun: bool, clock: real, acts: seq<Act>, i: nat)
    requires WellFormed(Fresh(base, maxClient))
    requires i < |RunActs(Begin(base, maxClient, hasTun, clock), acts).log|
    requires var e := RunActs(Begin(base, maxClient, hasTun, clock), acts).log[i]; e.Output? && e.dir.Down?
    ensures var r := RunActs(Begin(base, maxClient, hasTun, clock), acts);
            && r.log[i].sid in r.server.addressOf && r.log[i].to.Some?
            && DstIPUint32(r.log[i].pkt) == Ok(r.server.addressOf[r.log[i].sid])
            && HeardBefore(r.log, i, r.log[i].sid, r.log[i].to.value, r.server.addressOf[r.log[i].sid])
  {
    AddressedInEveryRun(base, maxClient, hasTun, clock, acts);
    assert WellAddressed(RunActs(Begin(base, maxClient, hasTun, clock), acts), i);
  }

  /** In every interleaving, each packet written to the TUN device has its session's address as source. */
  lemma WritesCarryTheOwnAddress(
    base: uint32, maxClient: ClientCount, hasTun: bool, clock: real, acts: seq<Act>, i: nat)
    requires WellFormed(Fresh(base, maxClient))
    requires i < |RunActs(Begin(base, maxClient, hasTun, clock), acts).log|
    requires var e := RunActs(Begin(base, maxClient, hasTun, clock), acts).log[i]; e.Output? && e.dir.Up?
    ensures var r := RunActs(Begin(base, maxClient, hasTun, clock), acts);
            && r.log[i].sid in r.server.addressOf
            && SrcIPUint32(r.log[i].pkt) == Ok(r.server.addressOf[r.log[i].sid])
  {
    AddressedInEveryRun(base, maxClient, hasTun, clock, acts);
    assert WellAddressed(RunActs(Begin(base, maxClient, hasTun, clock), acts), i);
  }

  /** The network address stored in a session object, live or stale, was heard from as that session. */
  lemma ClientAddressWasHeard(
    base: uint32, maxClient: ClientCount, hasTun: bool, clock: real, acts: seq<Act>, sid: HandlerId)
    requires WellFormed(Fresh(base, maxClient))
    requires var r := RunActs(Begin(base, maxClient, hasTun, clock), acts);
             sid in r.clients && r.clients[sid].addr.Some?
    ensures var r := RunActs(Begin(base, maxClient, hasTun, clock), acts);
            && sid in r.server.addressOf
            && HeardBefore(r.log, |r.log|, sid, r.clients[sid].addr.value, r.server.addressOf[sid])
  {
    AddressedInEveryRun(base, maxClient, hasTun, clock, acts);
    assert AddressHeard(RunActs(Begin(base, maxClient, hasTun, clock), acts), sid);
  }
}
