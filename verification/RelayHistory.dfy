/** What the packet loops did in a run: which address they knew, what they wrote, and where they sent. */
module RelayHistory {
  import opened Words
  import opened Wrappers
  import opened IpPool
  import opened PoolProperties
  import opened Packet
  import opened RateLimit
  import opened Sessions
  import opened Conn
  import opened Relay
  import opened RelayRates

  // ---------- The address of a client ----------

  /** Where the admitted packets of a session came from, in order. */
  function Senders(log: seq<Event>, sid: HandlerId): seq<Addr> {
    if log == [] then []
    else
      var e := log[|log| - 1];
      Senders(log[..|log| - 1], sid) + if e.Heard? && e.sid == sid then [e.from] else []
  }

  function Latest(senders: seq<Addr>): Option<Addr> {
    if senders == [] then None else Some(senders[|senders| - 1])
  }

  /** The latest sender of a session, but for one that is about to be stored. */
  function SettledSender(r: RelayState, sid: HandlerId): Option<Addr> {
    var senders := Senders(r.log, sid);
    if AboutToHear(r, sid) && senders != [] then Latest(senders[..|senders| - 1]) else Latest(senders)
  }

  /** A session's client address is the settled one, and the one about to be stored is the latest. */
  predicate KnowsLatest(r: RelayState, sid: HandlerId)
    requires sid in r.clients
  {
    && r.clients[sid].addr == SettledSender(r, sid)
    && (AboutToHear(r, sid) ==> Latest(Senders(r.log, sid)) == Some(r.up.from))
  }

  lemma {:induction false} SendersAppend(a: seq<Event>, b: seq<Event>, sid: HandlerId)
    ensures Senders(a + b, sid) == Senders(a, sid) + Senders(b, sid)
    decreases |b|
  {
    if b == [] {
      assert a + b == a;
    } else {
      assert (a + b)[..|a + b| - 1] == a + b[..|b| - 1];
      SendersAppend(a, b[..|b| - 1], sid);
    }
  }

  lemma {:induction false} SendersOfNobody(log: seq<Event>, sid: HandlerId)
    requires forall i | 0 <= i < |log| :: log[i].sid != sid
    ensures Senders(log, sid) == []
    decreases |log|
  {
    if log != [] {
      SendersOfNobody(log[..|log| - 1], sid);
    }
  }

  /** Whether the step admits a packet of the session from the client. */
  predicate Admits(r: RelayState, act: Act, sid: HandlerId) {
    act.AdmitUp? && r.up.UpFound? && r.up.sid == sid && sid in r.clients && Do(r, act).up.UpAdmitted?
  }

  lemma OneSender(e: Event, sid: HandlerId)
    ensures Senders([e], sid) == if e.Heard? && e.sid == sid then [e.from] else []
  {
    assert [e][..0] == [];
  }

  lemma NewSenders(r: RelayState, act: Act, sid: HandlerId)
    ensures Senders(NewEvents(r, act), sid) == if Admits(r, act, sid) then [r.up.from] else []
  {
    hide AllowOn, Sessions.Apply;
    var e := NewEvents(r, act);
    LogGrows(r, act);
    if |e| == 2 {
      assert e == [e[0]] + [e[1]];
      SendersAppend([e[0]], [e[1]], sid);
      OneSender(e[0], sid);
      OneSender(e[1], sid);
    } else if |e| == 1 {
      assert e == [e[0]];
      OneSender(e[0], sid);
    }
    hide Senders;
  }

  /** What a step does to the client address of a session. */
  lemma StepOnAddress(r: RelayState, act: Act, sid: HandlerId)
    requires Addressed(r) && sid in r.clients
    ensures var t := Do(r, act);
            && sid in t.clients
            && t.clients[sid].addr
               == (if act.StoreUp? && AboutToHear(r, sid) then Some(r.up.from) else r.clients[sid].addr)
            && (AboutToHear(t, sid) <==> (AboutToHear(r, sid) && !act.StoreUp?) || Admits(r, act, sid))
            && (AboutToHear(t, sid) ==> t.up.from == r.up.from)
  {
    if act.Session? {
      SessionsLeaveLoops(r, act, sid);
      hide Addressed, Do;
    } else {
      hide Addressed, AllowOn, Sessions.Apply;
    }
  }

  lemma StepKeepsLatest(r: RelayState, act: Act, sid: HandlerId)
    requires Addressed(r) && sid in r.clients && KnowsLatest(r, sid)
    ensures sid in Do(r, act).clients && KnowsLatest(Do(r, act), sid)
  {
    hide Addressed, Do, NewEvents, Senders;
    StepOnAddress(r, act, sid);
    LogGrows(r, act);
    SendersAppend(r.log, NewEvents(r, act), sid);
    NewSenders(r, act, sid);
    if Admits(r, act, sid) {
      assert (Senders(r.log, sid) + [r.up.from])[..|Senders(r.log, sid)|] == Senders(r.log, sid);
      assert !AboutToHear(r, sid);
    }
  }

  /** A session that is being registered has not been heard from. */
  lemma NewSessionKnowsLatest(r: RelayState, act: Act, sid: HandlerId)
    requires Addressed(r) && NamesSessions(r) && sid !in r.clients && sid in Do(r, act).clients
    ensures KnowsLatest(Do(r, act), sid)
  {
    SendersOfNobody(r.log, sid);
    if act.Session? {
      AddressesStay(r.server, act.step);
    }
    hide Addressed, AllowOn, Sessions.Apply, Enabled;
  }

  /**
   In every interleaving the address of a session's client is where its latest admitted packet came
   from; while the data loop is between admitting a packet and storing its sender, it is where the one
   before came from.
   */
  lemma {:induction false} ClientAddressIsLatest(
    base: uint32, maxClient: ClientCount, hasTun: bool, clock: real, acts: seq<Act>, sid: HandlerId)
    requires WellFormed(Fresh(base, maxClient))
    ensures var r := RunActs(Begin(base, maxClient, hasTun, clock), acts);
            sid in r.clients ==> KnowsLatest(r, sid)
    decreases |acts|
  {
    hide KnowsLatest, Addressed, Metered, Do;
    var r := Begin(base, maxClient, hasTun, clock);
    if acts != [] {
      var before, act := RunActs(r, acts[..|acts| - 1]), acts[|acts| - 1];
      ClientAddressIsLatest(base, maxClient, hasTun, clock, acts[..|acts| - 1], sid);
      MeteredInEveryRun(base, maxClient, hasTun, clock, acts[..|acts| - 1]);
      if sid in before.clients {
        StepKeepsLatest(before, act, sid);
      } else if sid in Do(before, act).clients {
        assert NamesSessions(before) by {
          MeteredNames(before);
        }
        NewSessionKnowsLatest(before, act, sid);
      }
    }
  }

  lemma MeteredNames(r: RelayState)
    requires Metered(r)
    ensures NamesSessions(r)
  {
  }

  // ---------- From where a packet is received to where it goes ----------

  /** The packet a loop is at, and the session it was looked up for. */
  function InFlight(r: RelayState, dir: Direction): Option<(HandlerId, Pkt)> {
    match dir
    case Up => if r.up.UpIdle? then None else Some((r.up.sid, r.up.pkt))
    case Down => if r.down.DownIdle? then None else Some((r.down.sid, r.down.pkt))
  }

  /** The step receives the packet, and finds the session that has an entry for its address. */
  predicate Receives(r: RelayState, act: Act, dir: Direction, sid: HandlerId, pkt: Pkt) {
    match dir
    case Up =>
      && act.ReceiveUp? && act.pkt == pkt
      && exists key :: SrcIPUint32(pkt) == Ok(key) && key in r.server.sessions && r.server.sessions[key] == sid
    case Down =>
      && act.ReceiveDown? && act.tunPkt == pkt
      && exists key :: DstIPUint32(pkt) == Ok(key) && key in r.server.sessions && r.server.sessions[key] == sid
  }

  lemma StepOnFlight(r: RelayState, act: Act, dir: Direction)
    ensures var before, after := InFlight(r, dir), InFlight(Do(r, act), dir);
            || after == before || after == None
            || (before == None && Receives(r, act, dir, after.value.0, after.value.1))
  {
    hide AllowOn, Sessions.Apply;
  }

  /** The packet in flight was received by step `k` of the run, and the loop has been at it since. */
  ghost predicate FlightSince(start: RelayState, acts: seq<Act>, dir: Direction, k: nat) {
    && k < |acts| && InFlight(RunActs(start, acts), dir).Some?
    && var (sid, pkt) := InFlight(RunActs(start, acts), dir).value;
       && Receives(RunActs(start, acts[..k]), acts[k], dir, sid, pkt)
       && forall j | k < j <= |acts| :: InFlight(RunActs(start, acts[..j]), dir) == InFlight(RunActs(start, acts), dir)
  }

  lemma {:induction false} FlightBegan(start: RelayState, acts: seq<Act>, dir: Direction)
    requires InFlight(start, dir).None? && InFlight(RunActs(start, acts), dir).Some?
    ensures exists k: nat :: FlightSince(start, acts, dir, k)
    decreases |acts|
  {
    hide Do, InFlight, Receives;
    var n := |acts| - 1;
    assert acts != [];
    var before := RunActs(start, acts[..n]);
    StepOnFlight(before, acts[n], dir);
    assert acts[..|acts|] == acts;
    if InFlight(RunActs(start, acts), dir) == InFlight(before, dir) {
      FlightBegan(start, acts[..n], dir);
      var k: nat :| FlightSince(start, acts[..n], dir, k);
      assert acts[..n][..k] == acts[..k];
      forall j | k < j <= |acts|
        ensures InFlight(RunActs(start, acts[..j]), dir) == InFlight(RunActs(start, acts), dir)
      {
        if j <= n {
          assert acts[..n][..j] == acts[..j];
          assert InFlight(RunActs(start, acts[..n][..j]), dir) == InFlight(before, dir);
        } else {
          assert acts[..j] == acts;
        }
      }
      assert FlightSince(start, acts, dir, k);
    } else {
      assert FlightSince(start, acts, dir, n);
    }
  }

  /** Event `i` of a run was put out by step `m`, which had its packet in flight. */
  ghost predicate PutOutBy(start: RelayState, acts: seq<Act>, i: nat, m: nat) {
    && m < |acts| && i < |RunActs(start, acts).log|
    && var e, before := RunActs(start, acts).log[i], RunActs(start, acts[..m]);
       && e.Output? && |before.log| == i && e.at == before.clock
       && InFlight(before, e.dir) == Some((e.sid, e.pkt))
       && acts[m] == (if e.dir.Up? then WriteUp else SendDown)
       && (e.dir.Down? ==> before.down.DownSending? && e.to == Some(before.down.to))
  }

  lemma {:induction false} OutputsArePutOut(start: RelayState, acts: seq<Act>, i: nat)
    requires |start.log| <= i < |RunActs(start, acts).log| && RunActs(start, acts).log[i].Output?
    ensures exists m: nat :: PutOutBy(start, acts, i, m)
    decreases |acts|
  {
    var n := |acts| - 1;
    assert acts != [];
    var before := RunActs(start, acts[..n]);
    LogGrows(before, acts[n]);
    if i < |before.log| {
      hide Do, InFlight, NewEvents;
      OutputsArePutOut(start, acts[..n], i);
      var m: nat :| PutOutBy(start, acts[..n], i, m);
      assert acts[..n][..m] == acts[..m];
      assert PutOutBy(start, acts, i, m);
    } else {
      OnlyOutput(before, acts[n], i - |before.log|);
      hide Do, NewEvents;
      assert PutOutBy(start, acts, i, n);
    }
  }

  lemma OnlyOutput(r: RelayState, act: Act, i: nat)
    requires i < |NewEvents(r, act)| && NewEvents(r, act)[i].Output?
    ensures var e := NewEvents(r, act)[i];
            && i == 0 && e.at == r.clock && InFlight(r, e.dir) == Some((e.sid, e.pkt))
            && act == (if e.dir.Up? then WriteUp else SendDown)
            && (e.dir.Down? ==> r.down.DownSending? && e.to == Some(r.down.to))
  {
    hide AllowOn;
  }

  /** Event `i` was put out by step `m`, and its packet received by step `k`. */
  ghost predicate ReceivedAndPutOut(start: RelayState, acts: seq<Act>, i: nat, k: nat, m: nat) {
    PutOutBy(start, acts, i, m) && FlightSince(start, acts[..m], RunActs(start, acts).log[i].dir, k)
  }

  lemma PutOutWasInFlight(start: RelayState, acts: seq<Act>, i: nat, m: nat)
    requires PutOutBy(start, acts, i, m)
    ensures var e := RunActs(start, acts).log[i];
            && InFlight(RunActs(start, acts[..m]), e.dir).Some?
            && (e.dir.Down? ==> var d := RunActs(start, acts[..m]).down;
                                d.DownSending? && e.to == Some(d.to) && e.sid == d.sid)
  {
    hide RunActs;
  }

  /**
   In every interleaving each packet put out is, unaltered, one that the loop received earlier, and
   goes out for the session that had the entry for its address when it was looked up.
   */
  lemma OutputsAreReceived(
    base: uint32, maxClient: ClientCount, hasTun: bool, clock: real, acts: seq<Act>, i: nat)
    requires i < |RunActs(Begin(base, maxClient, hasTun, clock), acts).log|
    requires RunActs(Begin(base, maxClient, hasTun, clock), acts).log[i].Output?
    ensures var start := Begin(base, maxClient, hasTun, clock);
            exists k: nat, m: nat :: ReceivedAndPutOut(start, acts, i, k, m)
  {
    var start := Begin(base, maxClient, hasTun, clock);
    var dir := RunActs(start, acts).log[i].dir;
    assert start.log == [] && InFlight(start, dir) == None;
    hide RunActs, PutOutBy, FlightSince, InFlight, Begin;
    OutputsArePutOut(start, acts, i);
    var m: nat :| PutOutBy(start, acts, i, m);
    PutOutIsWithin(start, acts, i, m);
    PutOutWasInFlight(start, acts, i, m);
    FlightBegan(start, acts[..m], dir);
    var k: nat :| FlightSince(start, acts[..m], dir, k);
    assert ReceivedAndPutOut(start, acts, i, k, m);
  }

  lemma PutOutIsWithin(start: RelayState, acts: seq<Act>, i: nat, m: nat)
    requires PutOutBy(start, acts, i, m)
    ensures m < |acts|
  {
  }

  /** The address being sent to was loaded by step `n` of the run; it was the client's at that time. */
  ghost predicate LoadedBy(start: RelayState, acts: seq<Act>, n: nat) {
    && n < |acts| && acts[n] == LoadDown
    && var r, before := RunActs(start, acts), RunActs(start, acts[..n]);
       && r.down.DownSending? && before.down == DownAdmitted(r.down.sid, r.down.pkt)
       && r.down.sid in before.clients && before.clients[r.down.sid].addr == Some(r.down.to)
       && forall j | n < j <= |acts| :: RunActs(start, acts[..j]).down == r.down
  }

  lemma StepOnSending(r: RelayState, act: Act)
    requires Do(r, act).down.DownSending?
    ensures var d := Do(r, act).down;
            || r.down == d
            || (act == LoadDown && r.down == DownAdmitted(d.sid, d.pkt)
                && d.sid in r.clients && r.clients[d.sid].addr == Some(d.to))
  {
    hide AllowOn, Sessions.Apply;
  }

  lemma {:induction false} SendingWasLoaded(start: RelayState, acts: seq<Act>)
    requires !start.down.DownSending? && RunActs(start, acts).down.DownSending?
    ensures exists n: nat :: LoadedBy(start, acts, n)
    decreases |acts|
  {
    hide Do;
    assert acts != [];
    var last := |acts| - 1;
    var before := RunActs(start, acts[..last]);
    StepOnSending(before, acts[last]);
    assert acts[..|acts|] == acts;
    if before.down == RunActs(start, acts).down {
      SendingWasLoaded(start, acts[..last]);
      var n: nat :| LoadedBy(start, acts[..last], n);
      assert acts[..last][..n] == acts[..n];
      forall j | n < j <= |acts|
        ensures RunActs(start, acts[..j]).down == RunActs(start, acts).down
      {
        if j <= last {
          assert acts[..last][..j] == acts[..j];
        }
      }
      assert LoadedBy(start, acts, n);
    } else {
      assert LoadedBy(start, acts, last);
    }
  }

  /** Event `i` was sent by step `m` to the settled sender of its session when step `n` loaded the address. */
  ghost predicate SentToSettled(start: RelayState, acts: seq<Act>, i: nat, n: nat, m: nat) {
    && PutOutBy(start, acts, i, m) && LoadedBy(start, acts[..m], n)
    && var e := RunActs(start, acts).log[i];
       e.to == SettledSender(RunActs(start, acts[..n]), e.sid)
  }

  /**
   In every interleaving each packet sent to a client goes to where the client's latest admitted packet
   had come from when the TUN loop loaded the address.
   */
  lemma SendsGoToTheLatestSender(
    base: uint32, maxClient: ClientCount, hasTun: bool, clock: real, acts: seq<Act>, i: nat)
    requires WellFormed(Fresh(base, maxClient))
    requires i < |RunActs(Begin(base, maxClient, hasTun, clock), acts).log|
    requires var e := RunActs(Begin(base, maxClient, hasTun, clock), acts).log[i]; e.Output? && e.dir.Down?
    ensures exists n: nat, m: nat :: SentToSettled(Begin(base, maxClient, hasTun, clock), acts, i, n, m)
  {
    var start := Begin(base, maxClient, hasTun, clock);
    var e := RunActs(start, acts).log[i];
    assert start.log == [] && start.down.DownIdle?;
    hide RunActs, PutOutBy, LoadedBy, Begin, InFlight, SettledSender, KnowsLatest;
    OutputsArePutOut(start, acts, i);
    var m: nat :| PutOutBy(start, acts, i, m);
    PutOutIsWithin(start, acts, i, m);
    PutOutWasInFlight(start, acts, i, m);
    SendingWasLoaded(start, acts[..m]);
    var n: nat :| LoadedBy(start, acts[..m], n);
    LoadedAddress(start, acts[..m], n);
    assert acts[..m][..n] == acts[..n];
    ClientAddressIsLatest(base, maxClient, hasTun, clock, acts[..n], e.sid);
    KnowsSettled(RunActs(start, acts[..n]), e.sid);
    assert SentToSettled(start, acts, i, n, m);
  }

  lemma LoadedAddress(start: RelayState, acts: seq<Act>, n: nat)
    requires LoadedBy(start, acts, n)
    ensures n < |acts|
    ensures var d, before := RunActs(start, acts).down, RunActs(start, acts[..n]);
            d.DownSending? && d.sid in before.clients && before.clients[d.sid].addr == Some(d.to)
  {
    hide RunActs;
  }

  lemma KnowsSettled(r: RelayState, sid: HandlerId)
    requires sid in r.clients && KnowsLatest(r, sid)
    ensures r.clients[sid].addr == SettledSender(r, sid)
  {
  }

  // ---------- Nothing admitted is lost ----------

  /** The client packets that were admitted, and those written to TUN, in order. */
  function HeardPackets(log: seq<Event>): seq<(HandlerId, Pkt)> {
    if log == [] then []
    else
      var e := log[|log| - 1];
      HeardPackets(log[..|log| - 1]) + if e.Heard? then [(e.sid, e.pkt)] else []
  }

  function WrittenPackets(log: seq<Event>): seq<(HandlerId, Pkt)> {
    if log == [] then []
    else
      var e := log[|log| - 1];
      WrittenPackets(log[..|log| - 1]) + if e.Output? && e.dir.Up? then [(e.sid, e.pkt)] else []
  }

  lemma {:induction false} PacketsAppend(a: seq<Event>, b: seq<Event>)
    ensures HeardPackets(a + b) == HeardPackets(a) + HeardPackets(b)
    ensures WrittenPackets(a + b) == WrittenPackets(a) + WrittenPackets(b)
    decreases |b|
  {
    if b == [] {
      assert a + b == a;
    } else {
      assert (a + b)[..|a + b| - 1] == a + b[..|b| - 1];
      PacketsAppend(a, b[..|b| - 1]);
    }
  }

  /** The admitted packet that the data loop has not written yet. */
  function Unwritten(r: RelayState): seq<(HandlerId, Pkt)> {
    if r.up.UpAdmitted? || r.up.UpStored? then [(r.up.sid, r.up.pkt)] else []
  }

  lemma OnePacket(e: Event)
    ensures HeardPackets([e]) == if e.Heard? then [(e.sid, e.pkt)] else []
    ensures WrittenPackets([e]) == if e.Output? && e.dir.Up? then [(e.sid, e.pkt)] else []
  {
    assert [e][..0] == [];
  }

  lemma NewPackets(r: RelayState, act: Act)
    ensures HeardPackets(NewEvents(r, act))
         == if act.AdmitUp? && r.up.UpFound? && Admits(r, act, r.up.sid) then [(r.up.sid, r.up.pkt)] else []
    ensures WrittenPackets(NewEvents(r, act))
         == if act.WriteUp? && r.up.UpStored? && r.hasTun then [(r.up.sid, r.up.pkt)] else []
  {
    hide AllowOn, Sessions.Apply;
    var e := NewEvents(r, act);
    LogGrows(r, act);
    if |e| == 2 {
      assert e == [e[0]] + [e[1]];
      PacketsAppend([e[0]], [e[1]]);
      OnePacket(e[0]);
      OnePacket(e[1]);
    } else if |e| == 1 {
      assert e == [e[0]];
      OnePacket(e[0]);
    }
    hide HeardPackets, WrittenPackets;
  }

  lemma StepWritesInOrder(r: RelayState, act: Act)
    requires r.hasTun && NamesSessions(r)
    ensures var t, e := Do(r, act), NewEvents(r, act);
            t.hasTun && Unwritten(r) + HeardPackets(e) == WrittenPackets(e) + Unwritten(t)
  {
    NewPackets(r, act);
    hide AllowOn, Sessions.Apply, NewEvents, HeardPackets, WrittenPackets, AskEvents;
  }

  lemma Reassociate<T>(heard: seq<T>, written: seq<T>, held: seq<T>, h: seq<T>, w: seq<T>, left: seq<T>)
    requires heard == written + held && held + h == w + left
    ensures heard + h == (written + w) + left
  {
    assert heard + h == written + (held + h);
  }

  /**
   With a TUN device, in every interleaving the packets written to it are exactly the admitted client
   packets, in the same order and unaltered, but for the one the data loop still holds.
   */
  lemma {:induction false} AdmittedPacketsAreWritten(
    base: uint32, maxClient: ClientCount, clock: real, acts: seq<Act>)
    requires WellFormed(Fresh(base, maxClient))
    ensures var r := RunActs(Begin(base, maxClient, true, clock), acts);
            r.hasTun && HeardPackets(r.log) == WrittenPackets(r.log) + Unwritten(r)
    decreases |acts|
  {
    if acts != [] {
      hide Do, NewEvents, HeardPackets, WrittenPackets, Unwritten, Addressed, Metered, NamesSessions;
      var n := |acts| - 1;
      var before := RunActs(Begin(base, maxClient, true, clock), acts[..n]);
      AdmittedPacketsAreWritten(base, maxClient, clock, acts[..n]);
      LogGrows(before, acts[n]);
      PacketsAppend(before.log, NewEvents(before, acts[n]));
      MeteredInEveryRun(base, maxClient, true, clock, acts[..n]);
      MeteredNames(before);
      StepWritesInOrder(before, acts[n]);
      var e := NewEvents(before, acts[n]);
      Reassociate(HeardPackets(before.log), WrittenPackets(before.log), Unwritten(before),
                  HeardPackets(e), WrittenPackets(e), Unwritten(Do(before, acts[n])));
    }
  }
}
