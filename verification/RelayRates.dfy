/** The rate limit of a session bounds what the packet loops put out, in every interleaving. */
module RelayRates {
  import opened Words
  import opened Wrappers
  import opened IpPool
  import opened PoolProperties
  import opened RateLimit
  import opened Sessions
  import opened Relay

  /** The calls of one limiter of one session, in order. */
  function Calls(log: seq<Event>, dir: Direction, sid: HandlerId): seq<Call> {
    if log == [] then []
    else
      var e := log[|log| - 1];
      Calls(log[..|log| - 1], dir, sid)
      + if e.Asked? && e.dir == dir && e.sid == sid then [Call(e.size, e.at)] else []
  }

  /** The bytes of one session written to TUN, or sent to its client, at times from `from` to `to`. */
  function OutputBetween(log: seq<Event>, dir: Direction, sid: HandlerId, from: real, to: real): nat {
    if log == [] then 0
    else
      var e := log[|log| - 1];
      OutputBetween(log[..|log| - 1], dir, sid, from, to)
      + if e.Output? && e.dir == dir && e.sid == sid && from <= e.at <= to then |e.pkt| else 0
  }

  /** The size of the packet of a session that the loop has had admitted and not put out yet. */
  function Held(r: RelayState, dir: Direction, sid: HandlerId): nat {
    match dir
    case Up => if (r.up.UpAdmitted? || r.up.UpStored?) && r.up.sid == sid then |r.up.pkt| else 0
    case Down => if (r.down.DownAdmitted? || r.down.DownSending?) && r.down.sid == sid then |r.down.pkt| else 0
  }

  function Limiter(c: Client, dir: Direction): Option<Bucket> {
    match dir
    case Up => c.up
    case Down => c.down
  }

  lemma {:induction false} CallsAppend(a: seq<Event>, b: seq<Event>, dir: Direction, sid: HandlerId)
    ensures Calls(a + b, dir, sid) == Calls(a, dir, sid) + Calls(b, dir, sid)
    decreases |b|
  {
    if b == [] {
      assert a + b == a;
    } else {
      assert (a + b)[..|a + b| - 1] == a + b[..|b| - 1];
      CallsAppend(a, b[..|b| - 1], dir, sid);
    }
  }

  lemma {:induction false} OutputAppend(
    a: seq<Event>, b: seq<Event>, dir: Direction, sid: HandlerId, from: real, to: real)
    ensures OutputBetween(a + b, dir, sid, from, to)
         == OutputBetween(a, dir, sid, from, to) + OutputBetween(b, dir, sid, from, to)
    decreases |b|
  {
    if b == [] {
      assert a + b == a;
    } else {
      assert (a + b)[..|a + b| - 1] == a + b[..|b| - 1];
      OutputAppend(a, b[..|b| - 1], dir, sid, from, to);
    }
  }

  // ---------- What a step does to one session in one direction ----------

  /** Step `act` asks the limiter of session `sid` in direction `dir`. */
  predicate AsksFor(r: RelayState, act: Act, dir: Direction, sid: HandlerId) {
    match dir
    case Up => act.AdmitUp? && r.up.UpFound? && r.up.sid == sid && sid in r.clients && r.clients[sid].up.Some?
    case Down =>
      act.AdmitDown? && r.down.DownFound? && r.down.sid == sid && sid in r.clients && r.clients[sid].down.Some?
  }

  function AskedSize(r: RelayState, dir: Direction): nat {
    match dir
    case Up => if r.up.UpFound? then |r.up.pkt| else 0
    case Down => if r.down.DownFound? then |r.down.pkt| else 0
  }

  /** The events a step adds to the log. */
  function NewEvents(r: RelayState, act: Act): seq<Event> {
    match act
    case AdmitUp =>
      if !(r.up.UpFound? && r.up.sid in r.clients) then []
      else
        var limiter := r.clients[r.up.sid].up;
        AskEvents(limiter, Up, r.up.sid, |r.up.pkt|, r.clock)
        + if Ask(limiter, |r.up.pkt|, r.clock).1 then [Heard(r.up.sid, r.up.pkt, r.up.from)] else []
    case AdmitDown =>
      if !(r.down.DownFound? && r.down.sid in r.clients) then []
      else AskEvents(r.clients[r.down.sid].down, Down, r.down.sid, |r.down.pkt|, r.clock)
    case WriteUp =>
      if r.up.UpStored? && r.hasTun then [Output(Up, r.up.sid, r.up.pkt, None, r.clock)] else []
    case SendDown =>
      if r.down.DownSending? then [Output(Down, r.down.sid, r.down.pkt, Some(r.down.to), r.clock)] else []
    case _ => []
  }

  lemma LogGrows(r: RelayState, act: Act)
    ensures Do(r, act).log == r.log + NewEvents(r, act)
    ensures |NewEvents(r, act)| <= 2
  {
    hide Sessions.Apply;
    hide AllowOn;
  }

  ghost predicate LimiterOk(r: RelayState, dir: Direction, sid: HandlerId)
    requires sid in r.clients && sid in r.limits
  {
    var calls := Calls(r.log, dir, sid);
    match r.limits[sid]
    case None => Limiter(r.clients[sid], dir).None?
    case Some(b) =>
      && GoodHistory(b, calls) && LastTime(b, calls) <= r.clock
      && Limiter(r.clients[sid], dir) == Some(After(b, calls))
  }

  /** Every event and every packet in flight belongs to a session that exists. */
  ghost predicate NamesSessions(r: RelayState) {
    && r.clients.Keys == r.limits.Keys
    && (forall i | 0 <= i < |r.log| :: r.log[i].sid in r.clients)
    && (r.up.UpAdmitted? || r.up.UpStored? ==> r.up.sid in r.clients)
    && (r.down.DownAdmitted? || r.down.DownSending? ==> r.down.sid in r.clients)
  }

  /** A limiter as `NewTokenBucket` makes it: a whole number of Mbps. */
  ghost predicate IsNewBucket(b: Bucket) {
    exists mbps: nat, at: real :: mbps > 0 && b == NewBucket(mbps, at)
  }

  /** A packet about to be sent is for a session whose client has been heard from. */
  predicate SendsToKnown(r: RelayState) {
    r.down.DownSending? ==> r.down.sid in r.clients && r.clients[r.down.sid].addr.Some?
  }

  /** Besides, every limiter is its initial state after its calls. */
  ghost predicate Metered(r: RelayState) {
    && NamesSessions(r) && SendsToKnown(r)
    && (forall sid | sid in r.clients :: LimiterOk(r, Up, sid) && LimiterOk(r, Down, sid))
    && (forall sid | sid in r.clients && r.limits[sid].Some? :: IsNewBucket(r.limits[sid].value))
  }

  /** Appending a call at the current time keeps a history good. */
  lemma HistoryGrows(b: Bucket, h: seq<Call>, size: nat, now: real)
    requires GoodHistory(b, h) && LastTime(b, h) <= now
    ensures GoodHistory(b, h + [Call(size, now)])
    ensures LastTime(b, h + [Call(size, now)]) == now
    ensures After(b, h + [Call(size, now)]) == AllowOn(After(b, h), size, now).0
    ensures Admitted(b, h + [Call(size, now)], |h|) == AllowOn(After(b, h), size, now).1
  {
    hide AllowOn;
    assert (h + [Call(size, now)])[..|h|] == h;
    if h != [] {
      assert forall k | 0 <= k < |h| :: h[k].at <= h[|h| - 1].at;
    } else {
      assert b.lastUpdate <= now;
    }
  }

  lemma {:induction false} CallsOfNobody(log: seq<Event>, dir: Direction, sid: HandlerId)
    requires forall i | 0 <= i < |log| :: log[i].sid != sid
    ensures Calls(log, dir, sid) == []
    decreases |log|
  {
    if log != [] {
      CallsOfNobody(log[..|log| - 1], dir, sid);
    }
  }

  lemma SingleEvent(e: Event, dir: Direction, sid: HandlerId, from: real, to: real)
    ensures Calls([e], dir, sid) == if e.Asked? && e.dir == dir && e.sid == sid then [Call(e.size, e.at)] else []
    ensures OutputBetween([e], dir, sid, from, to)
         == if e.Output? && e.dir == dir && e.sid == sid && from <= e.at <= to then |e.pkt| else 0
  {
    assert [e][..0] == [];
  }

  lemma FewEvents(e: seq<Event>, dir: Direction, sid: HandlerId, from: real, to: real)
    requires |e| <= 2
    ensures Calls(e, dir, sid)
         == (if |e| >= 1 then Calls([e[0]], dir, sid) else []) + (if |e| == 2 then Calls([e[1]], dir, sid) else [])
    ensures OutputBetween(e, dir, sid, from, to)
         == (if |e| >= 1 then OutputBetween([e[0]], dir, sid, from, to) else 0)
            + (if |e| == 2 then OutputBetween([e[1]], dir, sid, from, to) else 0)
  {
    if |e| == 2 {
      assert e == [e[0]] + [e[1]];
      CallsAppend([e[0]], [e[1]], dir, sid);
      OutputAppend([e[0]], [e[1]], dir, sid, from, to);
    } else if |e| == 1 {
      assert e == [e[0]];
    }
  }

  /** The calls and outputs among the events a step adds. */
  lemma NewEventsOf(r: RelayState, act: Act, dir: Direction, sid: HandlerId, from: real, to: real)
    ensures Calls(NewEvents(r, act), dir, sid)
         == if AsksFor(r, act, dir, sid) then [Call(AskedSize(r, dir), r.clock)] else []
    ensures !act.WriteUp? && !act.SendDown? ==> OutputBetween(NewEvents(r, act), dir, sid, from, to) == 0
    ensures act.WriteUp? || act.SendDown? ==>
              OutputBetween(NewEvents(r, act), dir, sid, from, to) + Held(Do(r, act), dir, sid) <= Held(r, dir, sid)
    ensures !(from <= r.clock <= to) ==> OutputBetween(NewEvents(r, act), dir, sid, from, to) == 0
  {
    hide Calls, OutputBetween, Sessions.Apply, AllowOn, Held;
    var e := NewEvents(r, act);
    LogGrows(r, act);
    FewEvents(e, dir, sid, from, to);
    if |e| >= 1 {
      SingleEvent(e[0], dir, sid, from, to);
    }
    if |e| == 2 {
      SingleEvent(e[1], dir, sid, from, to);
    }
    if act.WriteUp? || act.SendDown? {
      OutputWasHeld(r, act, dir, sid, from, to);
    }
    hide Do;
  }

  /** What a step puts out was held before, and is not any more. */
  lemma OutputWasHeld(r: RelayState, act: Act, dir: Direction, sid: HandlerId, from: real, to: real)
    requires act.WriteUp? || act.SendDown?
    ensures OutputBetween(NewEvents(r, act), dir, sid, from, to) + Held(Do(r, act), dir, sid) <= Held(r, dir, sid)
  {
    var e := NewEvents(r, act);
    if e == [] {
      assert OutputBetween(e, dir, sid, from, to) == 0;
    } else {
      assert e == [e[0]];
      SingleEvent(e[0], dir, sid, from, to);
    }
    hide OutputBetween;
  }

  /** A step of a handler or of `Close` leaves the loops and the session objects alone. */
  lemma SessionsLeaveLoops(r: RelayState, act: Act, sid: HandlerId)
    requires Addressed(r) && act.Session? && sid in r.clients
    ensures var t := Do(r, act);
            t.up == r.up && t.down == r.down && sid in t.clients && t.clients[sid] == r.clients[sid]
  {
    AddressesStay(r.server, act.step);
    hide Covered, Sessions.Apply, Enabled, UpOk, DownOk, AddressHeard, WellAddressed;
  }

  /** A new session is limited exactly if the user's rate limit is positive, and then in both directions alike. */
  lemma RegistrationSetsLimits(r: RelayState, h: HandlerId, rateLimit: int, age: real)
    requires Enabled(r.server, RegisterSession(h)) && age >= 0.0
    ensures var t := Do(r, Session(RegisterSession(h), rateLimit, age));
            var bytes := 125000.0 * rateLimit as real;
            var limit := if rateLimit <= 0 then None else Some(Bucket(bytes, bytes, bytes, r.clock - age));
            && t.clients == r.clients[h := Client(None, limit, limit)] && t.limits == r.limits[h := limit]
  {
    NewBucketStartsHistories(rateLimit, r.clock - age);
    hide NewBucket, Sessions.Apply;
  }

  /** How a step changes the limiter of an existing session. */
  lemma StepOnClient(r: RelayState, act: Act, dir: Direction, sid: HandlerId)
    requires Addressed(r) && r.clients.Keys == r.limits.Keys && sid in r.clients
    ensures var t := Do(r, act);
            && sid in t.clients && sid in t.limits && t.limits[sid] == r.limits[sid]
            && t.clock >= r.clock
            && (if AsksFor(r, act, dir, sid) then
                  && Limiter(r.clients[sid], dir).Some?
                  && Limiter(t.clients[sid], dir)
                     == Some(AllowOn(Limiter(r.clients[sid], dir).value, AskedSize(r, dir), r.clock).0)
                else Limiter(t.clients[sid], dir) == Limiter(r.clients[sid], dir))
  {
    if act.Session? {
      AddressesStay(r.server, act.step);
    }
    hide AllowOn;
    hide Sessions.Apply;
    hide Covered;
    hide Enabled;
  }

  /** How a step changes the record of a session's calls. */
  lemma StepOnCalls(r: RelayState, act: Act, dir: Direction, sid: HandlerId)
    ensures Calls(Do(r, act).log, dir, sid)
         == if AsksFor(r, act, dir, sid) then Calls(r.log, dir, sid) + [Call(AskedSize(r, dir), r.clock)]
            else Calls(r.log, dir, sid)
  {
    LogGrows(r, act);
    CallsAppend(r.log, NewEvents(r, act), dir, sid);
    NewEventsOf(r, act, dir, sid, 0.0, 0.0);
  }

  lemma StepKeepsLimiter(r: RelayState, act: Act, dir: Direction, sid: HandlerId)
    requires Addressed(r) && r.clients.Keys == r.limits.Keys && sid in r.clients
    requires LimiterOk(r, dir, sid)
    ensures sid in Do(r, act).clients && sid in Do(r, act).limits && LimiterOk(Do(r, act), dir, sid)
  {
    StepOnClient(r, act, dir, sid);
    StepOnCalls(r, act, dir, sid);
    hide Addressed;
    hide Do;
    hide AllowOn;
    hide GoodHistory;
    hide Calls;
    if AsksFor(r, act, dir, sid) {
      HistoryGrows(r.limits[sid].value, Calls(r.log, dir, sid), AskedSize(r, dir), r.clock);
    }
  }

  lemma NewSessionIsMetered(r: RelayState, step: Step, rateLimit: int, age: real)
    requires Addressed(r) && Metered(r)
    requires step.RegisterSession? && Enabled(r.server, step)
    ensures var t := Do(r, Session(step, rateLimit, age));
            && step.h in t.clients && step.h in t.limits
            && LimiterOk(t, Up, step.h) && LimiterOk(t, Down, step.h)
            && (t.limits[step.h].Some? ==> IsNewBucket(t.limits[step.h].value))
  {
    AddressesStay(r.server, step);
    CallsOfNobody(r.log, Up, step.h);
    CallsOfNobody(r.log, Down, step.h);
    NewBucketStartsHistories(rateLimit, r.clock - if age >= 0.0 then age else 0.0);
  }

  lemma StepKeepsNames(r: RelayState, act: Act)
    requires NamesSessions(r)
    ensures NamesSessions(Do(r, act)) && Do(r, act).clients.Keys >= r.clients.Keys
    ensures Do(r, act).clients.Keys
         == r.clients.Keys
            + if act.Session? && act.step.RegisterSession? && Enabled(r.server, act.step) then {act.step.h} else {}
  {
    hide Sessions.Apply;
    hide AllowOn;
    hide Enabled;
  }

  lemma StepKeepsSends(r: RelayState, act: Act)
    requires Addressed(r) && SendsToKnown(r)
    ensures SendsToKnown(Do(r, act))
  {
    if act.Session? {
      AddressesStay(r.server, act.step);
    }
    hide AllowOn, Sessions.Apply, Covered;
  }

  lemma StepKeepsMetered(r: RelayState, act: Act)
    requires Addressed(r) && Metered(r)
    ensures Metered(Do(r, act))
  {
    var t := Do(r, act);
    hide Addressed, Do, LimiterOk, IsNewBucket, Enabled, SendsToKnown;
    StepKeepsNames(r, act);
    StepKeepsSends(r, act);
    forall sid | sid in r.clients
      ensures sid in t.clients && sid in t.limits && LimiterOk(t, Up, sid) && LimiterOk(t, Down, sid)
      ensures t.limits[sid] == r.limits[sid]
    {
      StepKeepsLimiter(r, act, Up, sid);
      StepKeepsLimiter(r, act, Down, sid);
      StepOnClient(r, act, Up, sid);
    }
    if act.Session? && act.step.RegisterSession? && Enabled(r.server, act.step) {
      NewSessionIsMetered(r, act.step, act.rateLimit, act.age);
    }
  }

  lemma {:induction false} RunsKeepMetered(r: RelayState, acts: seq<Act>)
    requires Addressed(r) && Metered(r)
    ensures Addressed(RunActs(r, acts)) && Metered(RunActs(r, acts))
    decreases |acts|
  {
    hide Addressed;
    hide Metered;
    hide Do;
    if acts != [] {
      RunsKeepMetered(r, acts[..|acts| - 1]);
      StepKeepsAddressed(RunActs(r, acts[..|acts| - 1]), acts[|acts| - 1]);
      StepKeepsMetered(RunActs(r, acts[..|acts| - 1]), acts[|acts| - 1]);
    }
  }

  /** In every interleaving the limiters are their initial states after their own calls. */
  lemma MeteredInEveryRun(base: uint32, maxClient: ClientCount, hasTun: bool, clock: real, acts: seq<Act>)
    requires WellFormed(Fresh(base, maxClient))
    ensures var r := RunActs(Begin(base, maxClient, hasTun, clock), acts); Addressed(r) && Metered(r)
  {
    BeginsAddressed(base, maxClient, hasTun, clock);
    RunsKeepMetered(Begin(base, maxClient, hasTun, clock), acts);
  }

  // ---------- Tokens, held packets and output ----------

  /** A session exists and has a limiter. */
  predicate Limited(r: RelayState, dir: Direction, sid: HandlerId) {
    sid in r.clients && Limiter(r.clients[sid], dir).Some?
  }

  /** The tokens a session's limiter has at this moment. */
  function TokensNow(r: RelayState, dir: Direction, sid: HandlerId): real
    requires Limited(r, dir, sid)
  {
    Refill(Limiter(r.clients[sid], dir).value, r.clock).tokens
  }

  lemma LimiterInRange(r: RelayState, dir: Direction, sid: HandlerId)
    requires Metered(r) && Limited(r, dir, sid)
    ensures var b := Limiter(r.clients[sid], dir).value;
            && b.rate > 0.0 && b.lastUpdate <= r.clock && 0.0 <= b.tokens <= b.capacity
            && 0.0 <= TokensNow(r, dir, sid) <= b.capacity
            && r.limits[sid].Some? && b.rate == r.limits[sid].value.rate && b.capacity == r.limits[sid].value.capacity
  {
    assert LimiterOk(r, dir, sid) by {
      assert LimiterOk(r, Up, sid) && LimiterOk(r, Down, sid);
    }
    var b, calls := r.limits[sid].value, Calls(r.log, dir, sid);
    TokensInRange(b, calls);
    ParametersStay(b, calls);
    hide Earned;
    Elapse(b.rate, 0.0, After(b, calls).lastUpdate, r.clock);
    hide After;
  }

  /** Asking takes exactly what is admitted from the tokens of the moment. */
  lemma AskingSpends(b: Bucket, n: nat, now: real)
    requires b.rate > 0.0 && b.tokens <= b.capacity
    ensures var (c, ok) := AllowOn(b, n, now);
            && Refill(c, now).tokens == Refill(b, now).tokens - (if ok then n else 0) as real
            && c.rate == b.rate && c.capacity == b.capacity
            && (ok <==> Refill(b, now).tokens >= n as real)
  {
    assert Earned(b.rate, now - now) == 0.0;
    hide Earned;
  }

  /** Waiting earns at most the rate. */
  lemma WaitingEarns(b: Bucket, now: real, later: real)
    requires b.rate > 0.0 && now <= later
    ensures Refill(b, later).tokens <= Refill(b, now).tokens + Earned(b.rate, later - now)
  {
    hide Earned;
    Elapse(b.rate, b.lastUpdate, now, later);
  }

  /** Waiting earns the rate, up to the capacity. */
  lemma WaitingRefills(b: Bucket, now: real, later: real)
    requires b.rate > 0.0 && now <= later
    ensures var earned := Refill(b, now).tokens + Earned(b.rate, later - now);
            Refill(b, later).tokens == if earned > b.capacity then b.capacity else earned
  {
    hide Earned;
    Elapse(b.rate, b.lastUpdate, now, later);
  }

  lemma AskingMovesToHeld(r: RelayState, act: Act, dir: Direction, sid: HandlerId)
    requires AsksFor(r, act, dir, sid)
    ensures Held(r, dir, sid) == 0 && Do(r, act).clock == r.clock
    ensures Held(Do(r, act), dir, sid)
         == if AllowOn(Limiter(r.clients[sid], dir).value, AskedSize(r, dir), r.clock).1 then AskedSize(r, dir) else 0
  {
    hide AllowOn;
  }

  lemma OthersHoldNoMore(r: RelayState, act: Act, dir: Direction, sid: HandlerId)
    requires !AsksFor(r, act, dir, sid) && !act.WriteUp? && !act.SendDown?
    requires Limited(r, dir, sid)
    ensures Held(Do(r, act), dir, sid) <= Held(r, dir, sid)
  {
    hide AllowOn;
    hide Sessions.Apply;
  }

  /**
   No step creates bytes: what it puts out, what is then held and the tokens then left are at most
   what was held, the tokens there were and what the time that passed earns.
   */
  lemma StepSpends(r: RelayState, act: Act, dir: Direction, sid: HandlerId, from: real, to: real)
    requires Addressed(r) && Metered(r) && Limited(r, dir, sid)
    ensures var t, b := Do(r, act), Limiter(r.clients[sid], dir).value;
            && Limited(t, dir, sid) && t.clock >= r.clock
            && Limiter(t.clients[sid], dir).value.rate == b.rate
            && Limiter(t.clients[sid], dir).value.capacity == b.capacity
            && OutputBetween(NewEvents(r, act), dir, sid, from, to) as real
               + Held(t, dir, sid) as real + TokensNow(t, dir, sid)
               <= Held(r, dir, sid) as real + TokensNow(r, dir, sid) + Earned(b.rate, t.clock - r.clock)
  {
    var t, b := Do(r, act), Limiter(r.clients[sid], dir).value;
    LimiterInRange(r, dir, sid);
    StepOnClient(r, act, dir, sid);
    NewEventsOf(r, act, dir, sid, from, to);
    hide Addressed, Metered, Do, NewEvents, OutputBetween, AllowOn, Refill, Held, Earned;
    if AsksFor(r, act, dir, sid) {
      AskingMovesToHeld(r, act, dir, sid);
      AskingSpends(b, AskedSize(r, dir), r.clock);
      Elapse(b.rate, r.clock, r.clock, t.clock);
    } else {
      WaitingEarns(b, r.clock, t.clock);
      if !act.WriteUp? && !act.SendDown? {
        OthersHoldNoMore(r, act, dir, sid);
      }
    }
  }

  /** No step gives a session more tokens than the time that passed earns. */
  lemma StepEarns(r: RelayState, act: Act, dir: Direction, sid: HandlerId)
    requires Addressed(r) && Metered(r) && Limited(r, dir, sid)
    ensures var t, b := Do(r, act), Limiter(r.clients[sid], dir).value;
            && Limited(t, dir, sid)
            && TokensNow(t, dir, sid) <= TokensNow(r, dir, sid) + Earned(b.rate, t.clock - r.clock)
  {
    var t, b := Do(r, act), Limiter(r.clients[sid], dir).value;
    LimiterInRange(r, dir, sid);
    StepOnClient(r, act, dir, sid);
    hide Addressed, Metered, Do, AllowOn, Refill, Earned;
    if AsksFor(r, act, dir, sid) {
      ClockStands(r, act, dir, sid);
      AskingSpends(b, AskedSize(r, dir), r.clock);
      Elapse(b.rate, r.clock, r.clock, t.clock);
    } else {
      WaitingEarns(b, r.clock, t.clock);
    }
  }

  lemma ClockStands(r: RelayState, act: Act, dir: Direction, sid: HandlerId)
    requires AsksFor(r, act, dir, sid)
    ensures Do(r, act).clock == r.clock
  {
    hide AllowOn;
  }
}
