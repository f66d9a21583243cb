/** How many bytes of a session the packet loops put out in a time window. */
module RelayWindows {
  import opened Words
  import opened Wrappers
  import opened IpPool
  import opened PoolProperties
  import opened RateLimit
  import opened Sessions
  import opened Relay
  import opened RelayRates

  // ---------- Between two states of a run ----------

  /**
   Between any two states of a run: what was put out, what is still held and the tokens that are left
   are at most what was held, the tokens there were, and what the time between them earns.
   */
  lemma {:induction false} OutputAfterState(
    r: RelayState, acts: seq<Act>, dir: Direction, sid: HandlerId, from: real, to: real)
    requires Addressed(r) && Metered(r) && Limited(r, dir, sid)
    ensures var t, b := RunActs(r, acts), Limiter(r.clients[sid], dir).value;
            && Metered(t) && Limited(t, dir, sid) && t.clock >= r.clock
            && Limiter(t.clients[sid], dir).value.rate == b.rate
            && Limiter(t.clients[sid], dir).value.capacity == b.capacity
            && (OutputBetween(t.log, dir, sid, from, to) + Held(t, dir, sid)) as real + TokensNow(t, dir, sid)
               <= (OutputBetween(r.log, dir, sid, from, to) + Held(r, dir, sid)) as real + TokensNow(r, dir, sid)
                  + Earned(b.rate, t.clock - r.clock)
    decreases |acts|
  {
    hide Addressed, Metered, Do, NewEvents, OutputBetween, Held, TokensNow, Earned;
    var b := Limiter(r.clients[sid], dir).value;
    if acts == [] {
      assert Earned(b.rate, 0.0) == 0.0 by {
        Elapse(b.rate, 0.0, 0.0, 0.0);
      }
    } else {
      var before, act := RunActs(r, acts[..|acts| - 1]), acts[|acts| - 1];
      OutputAfterState(r, acts[..|acts| - 1], dir, sid, from, to);
      RunsKeepMetered(r, acts[..|acts| - 1]);
      StepSpends(before, act, dir, sid, from, to);
      LogGrows(before, act);
      OutputAppend(before.log, NewEvents(before, act), dir, sid, from, to);
      RunsKeepMetered(r, acts);
      Elapse(b.rate, r.clock, before.clock, Do(before, act).clock);
    }
  }

  // ---------- In a time window ----------

  /**
   What the loop held of the session when the clock reached `from`: in the last state before that
   time, or in the first state if the run starts later.
   */
  function HeldAt(r: RelayState, acts: seq<Act>, dir: Direction, sid: HandlerId, from: real): nat {
    if acts == [] || RunActs(r, acts).clock < from then Held(RunActs(r, acts), dir, sid)
    else HeldAt(r, acts[..|acts| - 1], dir, sid, from)
  }

  lemma {:induction false} HeldIsOnePacket(r: RelayState, acts: seq<Act>, dir: Direction, sid: HandlerId, from: real)
    ensures HeldAt(r, acts, dir, sid, from) <= 1300
    decreases |acts|
  {
    hide RunActs;
    if acts != [] {
      HeldIsOnePacket(r, acts[..|acts| - 1], dir, sid, from);
    }
  }

  /** What the window still allows when `held` bytes were held at its start. */
  ghost predicate WithinWindow(r: RelayState, dir: Direction, sid: HandlerId, from: real, to: real, held: nat) {
    var out := OutputBetween(r.log, dir, sid, from, to);
    && (r.clock < from ==> out == 0)
    && (sid !in r.clients ==> out == 0 && Held(r, dir, sid) == 0)
    && (r.clock >= from && Limited(r, dir, sid) ==>
          var b := Limiter(r.clients[sid], dir).value;
          if r.clock <= to then
            (out + Held(r, dir, sid)) as real + TokensNow(r, dir, sid)
            <= held as real + b.capacity + Earned(b.rate, r.clock - from)
          else out as real <= held as real + b.capacity + Earned(b.rate, to - from))
  }

  lemma {:induction false} OutputOfNobody(log: seq<Event>, dir: Direction, sid: HandlerId, from: real, to: real)
    requires forall i | 0 <= i < |log| :: log[i].sid != sid
    ensures OutputBetween(log, dir, sid, from, to) == 0
    decreases |log|
  {
    if log != [] {
      OutputOfNobody(log[..|log| - 1], dir, sid, from, to);
    }
  }

  /** A session that does not exist has put nothing out and has nothing held. */
  lemma NobodyHolds(r: RelayState, dir: Direction, sid: HandlerId, from: real, to: real)
    requires NamesSessions(r) && sid !in r.clients
    ensures OutputBetween(r.log, dir, sid, from, to) == 0 && Held(r, dir, sid) == 0
  {
    OutputOfNobody(r.log, dir, sid, from, to);
  }

  lemma NewSessionWithin(r: RelayState, act: Act, dir: Direction, sid: HandlerId, from: real, to: real, held: nat)
    requires Addressed(r) && Metered(r) && sid !in r.clients && from <= to
    ensures WithinWindow(Do(r, act), dir, sid, from, to, held)
  {
    var t := Do(r, act);
    NobodyHolds(r, dir, sid, from, to);
    StepKeepsNames(r, act);
    StepKeepsMetered(r, act);
    if sid in t.clients {
      assert act.Session?;
      assert t.log == r.log && Held(t, dir, sid) == 0 && t.clock == r.clock;
      if Limited(t, dir, sid) {
        LimiterInRange(t, dir, sid);
        Elapse(Limiter(t.clients[sid], dir).value.rate, from, t.clock, t.clock);
        Elapse(Limiter(t.clients[sid], dir).value.rate, from, to, to);
      }
    } else {
      NobodyHolds(t, dir, sid, from, to);
    }
    hide *;
  }

  /** Time passes only in steps that put nothing out and change nothing held. */
  lemma ClockMovesAlone(r: RelayState, act: Act, dir: Direction, sid: HandlerId)
    ensures Do(r, act).clock >= r.clock
    ensures Do(r, act).clock > r.clock ==> Do(r, act).log == r.log && Held(Do(r, act), dir, sid) == Held(r, dir, sid)
  {
    hide Sessions.Apply;
    hide AllowOn;
  }

  lemma StepKeepsWithin(r: RelayState, act: Act, dir: Direction, sid: HandlerId, from: real, to: real, held: nat)
    requires Addressed(r) && Metered(r) && Limited(r, dir, sid) && from <= to
    requires WithinWindow(r, dir, sid, from, to, held)
    requires r.clock < from ==> held == Held(r, dir, sid)
    ensures WithinWindow(Do(r, act), dir, sid, from, to, held)
  {
    var t := Do(r, act);
    StepSpends(r, act, dir, sid, from, to);
    StepKeepsMetered(r, act);
    LimiterInRange(r, dir, sid);
    LimiterInRange(t, dir, sid);
    LogGrows(r, act);
    OutputAppend(r.log, NewEvents(r, act), dir, sid, from, to);
    NewEventsOf(r, act, dir, sid, from, to);
    ClockMovesAlone(r, act, dir, sid);
    hide *;
    WindowMoves(r, t, dir, sid, from, to, held, OutputBetween(NewEvents(r, act), dir, sid, from, to));
  }

  /** Any move that spends no more than it earns, and puts bytes out only at its own time, stays within. */
  lemma WindowMoves(
    r: RelayState, t: RelayState, dir: Direction, sid: HandlerId, from: real, to: real, held: nat, out: nat)
    requires from <= to && r.clock <= t.clock
    requires Limited(r, dir, sid) && Limited(t, dir, sid)
    requires WithinWindow(r, dir, sid, from, to, held)
    requires r.clock < from ==> held == Held(r, dir, sid)
    requires var b, c := Limiter(r.clients[sid], dir).value, Limiter(t.clients[sid], dir).value;
             && c.rate == b.rate > 0.0 && c.capacity == b.capacity
             && 0.0 <= TokensNow(r, dir, sid) && 0.0 <= TokensNow(t, dir, sid) <= b.capacity
             && out as real + Held(t, dir, sid) as real + TokensNow(t, dir, sid)
                <= Held(r, dir, sid) as real + TokensNow(r, dir, sid) + Earned(b.rate, t.clock - r.clock)
    requires OutputBetween(t.log, dir, sid, from, to) == OutputBetween(r.log, dir, sid, from, to) + out
    requires !(from <= r.clock <= to) ==> out == 0
    requires t.clock > r.clock ==> out == 0 && Held(t, dir, sid) == Held(r, dir, sid)
    ensures WithinWindow(t, dir, sid, from, to, held)
  {
    var rate := Limiter(r.clients[sid], dir).value.rate;
    hide OutputBetween, Held, TokensNow, Earned;
    Elapse(rate, from, r.clock, t.clock);
    Elapse(rate, from, r.clock, to);
    Elapse(rate, from, from, t.clock);
    Elapse(rate, from, from, to);
  }

  lemma {:induction false} WithinWindowInEveryRun(
    base: uint32, maxClient: ClientCount, hasTun: bool, clock: real, acts: seq<Act>,
    dir: Direction, sid: HandlerId, from: real, to: real)
    requires WellFormed(Fresh(base, maxClient)) && from <= to
    ensures var r := Begin(base, maxClient, hasTun, clock);
            var held := HeldAt(r, acts, dir, sid, from);
            && WithinWindow(RunActs(r, acts), dir, sid, from, to, held)
            && (RunActs(r, acts).clock < from ==> held == Held(RunActs(r, acts), dir, sid))
    decreases |acts|
  {
    var r := Begin(base, maxClient, hasTun, clock);
    if acts != [] {
      var n := |acts| - 1;
      var before, act := RunActs(r, acts[..n]), acts[n];
      var held := HeldAt(r, acts[..n], dir, sid, from);
      WithinWindowInEveryRun(base, maxClient, hasTun, clock, acts[..n], dir, sid, from, to);
      MeteredInEveryRun(base, maxClient, hasTun, clock, acts[..n]);
      ClockMovesAlone(before, act, dir, sid);
      assert RunActs(r, acts) == Do(before, act);
      assert HeldAt(r, acts, dir, sid, from)
          == if Do(before, act).clock < from then Held(Do(before, act), dir, sid) else held;
      hide *;
      if sid !in before.clients {
        NewSessionWithin(before, act, dir, sid, from, to, HeldAt(r, acts, dir, sid, from));
      } else if Limited(before, dir, sid) {
        StepKeepsWithin(before, act, dir, sid, from, to, held);
        EarlyWindows(Do(before, act), dir, sid, from, to, held, Held(Do(before, act), dir, sid));
      } else {
        UnlimitedStays(before, act, dir, sid, from, to, held, HeldAt(r, acts, dir, sid, from));
      }
    }
  }

  /** Before the window starts it does not matter what is held. */
  lemma EarlyWindows(r: RelayState, dir: Direction, sid: HandlerId, from: real, to: real, held: nat, other: nat)
    requires WithinWindow(r, dir, sid, from, to, held)
    ensures r.clock < from ==> WithinWindow(r, dir, sid, from, to, other)
  {
  }

  lemma UnlimitedStays(
    r: RelayState, act: Act, dir: Direction, sid: HandlerId, from: real, to: real, held: nat, other: nat)
    requires Addressed(r) && Metered(r) && sid in r.clients && !Limited(r, dir, sid)
    requires WithinWindow(r, dir, sid, from, to, held)
    ensures WithinWindow(Do(r, act), dir, sid, from, to, other)
  {
    StepOnClient(r, act, dir, sid);
    LogGrows(r, act);
    OutputAppend(r.log, NewEvents(r, act), dir, sid, from, to);
    NewEventsOf(r, act, dir, sid, from, to);
    hide Addressed, Metered, Do, NewEvents, OutputBetween, Held, Calls, AsksFor;
  }

  /**
   In every interleaving and for every rate-limited session: the bytes the data loop writes to the
   TUN device and, separately, those the TUN loop sends in any time window are at most capacity +
   rate * (length of the window), plus the one packet of the session that the loop held, admitted but
   not put out, when the window began. The tokens stay between zero and the capacity.
   */
  lemma SessionsStayWithinRate(
    base: uint32, maxClient: ClientCount, hasTun: bool, clock: real, acts: seq<Act>,
    dir: Direction, sid: HandlerId, from: real, to: real)
    requires WellFormed(Fresh(base, maxClient)) && from <= to
    requires Limited(RunActs(Begin(base, maxClient, hasTun, clock), acts), dir, sid)
    ensures var r := RunActs(Begin(base, maxClient, hasTun, clock), acts);
            var b := Limiter(r.clients[sid], dir).value;
            var held := HeldAt(Begin(base, maxClient, hasTun, clock), acts, dir, sid, from);
            && OutputBetween(r.log, dir, sid, from, to) as real <= b.capacity + Earned(b.rate, to - from) + held as real
            && held <= 1300
            && 0.0 <= b.tokens <= b.capacity
  {
    var start := Begin(base, maxClient, hasTun, clock);
    var r := RunActs(start, acts);
    var b := Limiter(r.clients[sid], dir).value;
    WithinWindowInEveryRun(base, maxClient, hasTun, clock, acts, dir, sid, from, to);
    MeteredInEveryRun(base, maxClient, hasTun, clock, acts);
    HeldIsOnePacket(start, acts, dir, sid, from);
    LimiterInRange(r, dir, sid);
    hide *;
    WindowEnds(r, dir, sid, from, to, HeldAt(start, acts, dir, sid, from));
  }

  lemma WindowEnds(r: RelayState, dir: Direction, sid: HandlerId, from: real, to: real, held: nat)
    requires from <= to && Limited(r, dir, sid) && WithinWindow(r, dir, sid, from, to, held)
    requires var b := Limiter(r.clients[sid], dir).value;
             b.rate > 0.0 && b.capacity >= 0.0 && TokensNow(r, dir, sid) >= 0.0
    ensures var b := Limiter(r.clients[sid], dir).value;
            OutputBetween(r.log, dir, sid, from, to) as real <= b.capacity + Earned(b.rate, to - from) + held as real
  {
    var b := Limiter(r.clients[sid], dir).value;
    hide OutputBetween, Held, TokensNow, Earned;
    Elapse(b.rate, from, r.clock, to);
    Elapse(b.rate, from, from, to);
  }
}
