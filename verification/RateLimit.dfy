/**
 The rate limiter of server/daemon/daemon.go. Tokens and times are reals: rounding is not modelled.
 The clock is a parameter of every call.
 */
module RateLimit {

  datatype Bucket = Bucket(rate: real, capacity: real, tokens: real, lastUpdate: real)

  /** `NewTokenBucket` at time `now`: the rate in bytes per second, with one second of burst. */
  function NewBucket(rateMbps: int, now: real): Bucket {
    var rate := rateMbps as real * 1000000.0 / 8.0;
    Bucket(rate, rate, rate, now)
  }

  /** The bytes earned at a rate over a span of time. */
  function Earned(rate: real, elapsed: real): real {
    elapsed * rate
  }

  function Refill(b: Bucket, now: real): Bucket {
    var tokens := b.tokens + Earned(b.rate, now - b.lastUpdate);
    b.(tokens := if tokens > b.capacity then b.capacity else tokens, lastUpdate := now)
  }

  /** One call of `Allow` on `n` bytes: the bucket afterwards and the answer. */
  function AllowOn(b: Bucket, n: int, now: real): (Bucket, bool) {
    if b.rate <= 0.0 then (b, true)
    else
      var c := Refill(b, now);
      if c.tokens >= n as real then (c.(tokens := c.tokens - n as real), true) else (c, false)
  }

  class TokenBucket {
    const rate: real
    const capacity: real
    var tokens: real
    var lastUpdate: real

    ghost function State(): Bucket
      reads this
    {
      Bucket(rate, capacity, tokens, lastUpdate)
    }

    constructor (rateMbps: int, now: real)
      ensures State() == NewBucket(rateMbps, now)
      ensures rate == capacity == tokens == 125000.0 * rateMbps as real && lastUpdate == now
    {
      var r := rateMbps as real * 1000000.0 / 8.0;
      rate, capacity, tokens, lastUpdate := r, r, r, now;
    }

    method Allow(n: int, now: real) returns (ok: bool)
      modifies this
      ensures (State(), ok) == AllowOn(old(State()), n, now)
    {
      if rate <= 0.0 {
        return true;
      }
      var elapsed := now - lastUpdate;
      assert elapsed * rate == Earned(rate, elapsed);
      hide Earned;
      tokens := tokens + elapsed * rate;
      if tokens > capacity {
        tokens := capacity;
      }
      lastUpdate := now;
      var needed := n as real;
      if tokens >= needed {
        tokens := tokens - needed;
        return true;
      }
      return false;
    }
  }

  // ---------- Histories ----------

  datatype Call = Call(size: nat, at: real)

  /** The bucket after a history of calls. */
  function After(b: Bucket, h: seq<Call>): Bucket {
    if h == [] then b
    else AllowOn(After(b, h[..|h| - 1]), h[|h| - 1].size, h[|h| - 1].at).0
  }

  /** Whether call number `k` of a history was admitted. */
  predicate Admitted(b: Bucket, h: seq<Call>, k: nat)
    requires k < |h|
  {
    AllowOn(After(b, h[..k]), h[k].size, h[k].at).1
  }

  /** A limited bucket, full when created, and a history whose times never go back. */
  ghost predicate GoodHistory(b: Bucket, h: seq<Call>) {
    && b.rate > 0.0 && b.tokens == b.capacity >= 0.0
    && (forall k | 0 <= k < |h| :: b.lastUpdate <= h[k].at)
    && (forall j, k | 0 <= j <= k < |h| :: h[j].at <= h[k].at)
  }

  /** The bytes admitted by calls number `i` up to the last. */
  function AdmittedFrom(b: Bucket, h: seq<Call>, i: nat): nat
    requires i <= |h|
  {
    if i == |h| then 0
    else
      var n := |h| - 1;
      AdmittedFrom(b, h[..n], i) + if Admitted(b, h, n) then h[n].size else 0
  }

  function LastTime(b: Bucket, h: seq<Call>): real {
    if h == [] then b.lastUpdate else h[|h| - 1].at
  }

  /** The start of window `j`: the creation for `j == 0`, otherwise call number `j - 1`. */
  function WindowStart(b: Bucket, h: seq<Call>, j: nat): real
    requires j <= |h|
  {
    if j == 0 then b.lastUpdate else h[j - 1].at
  }

  /** The index of the first call that counts in window `j`. */
  function FirstCall(j: nat): nat {
    if j == 0 then 0 else j - 1
  }

  /** What the policy still grants at time `now` in window `j`: burst plus refill minus usage. */
  function Slack(b: Bucket, h: seq<Call>, j: nat, now: real): real
    requires j <= |h|
  {
    b.capacity + Earned(b.rate, now - WindowStart(b, h, j)) - AdmittedFrom(b, h, FirstCall(j)) as real
  }

  ghost predicate IsLeastSlack(b: Bucket, h: seq<Call>, now: real, t: real) {
    && (forall j: nat | j <= |h| :: t <= Slack(b, h, j, now))
    && (exists j: nat | j <= |h| :: t == Slack(b, h, j, now))
  }

  lemma GoodPrefix(b: Bucket, h: seq<Call>)
    requires GoodHistory(b, h) && h != []
    ensures GoodHistory(b, h[..|h| - 1])
    ensures LastTime(b, h[..|h| - 1]) <= LastTime(b, h)
  {
  }

  lemma {:induction false} ParametersStay(b: Bucket, h: seq<Call>)
    requires b.rate > 0.0
    ensures After(b, h).rate == b.rate && After(b, h).capacity == b.capacity
    ensures After(b, h).lastUpdate == LastTime(b, h)
    decreases |h|
  {
    if h != [] {
      ParametersStay(b, h[..|h| - 1]);
    }
  }

  /** How one more call changes the slack of a window that was already open. */
  lemma SlackAfterCall(b: Bucket, h: seq<Call>, j: nat, now: real)
    requires h != [] && j < |h|
    ensures var n := |h| - 1;
            && WindowStart(b, h, j) == WindowStart(b, h[..n], j)
            && Slack(b, h, j, now)
               == Slack(b, h[..n], j, LastTime(b, h[..n]))
                  + Earned(b.rate, now - LastTime(b, h[..n]))
                  - (if Admitted(b, h, n) then h[n].size else 0) as real
  {
    hide Earned;
    var n := |h| - 1;
    var g := h[..n];
    assert j > 0 ==> g[j - 1] == h[j - 1];
    var s, last := WindowStart(b, g, j), LastTime(b, g);
    Elapse(b.rate, s, last, now);
    assert AdmittedFrom(b, h, FirstCall(j))
        == AdmittedFrom(b, g, FirstCall(j)) + if Admitted(b, h, n) then h[n].size else 0;
  }

  lemma Elapse(rate: real, s: real, last: real, now: real)
    ensures Earned(rate, now - s) == Earned(rate, last - s) + Earned(rate, now - last)
    ensures rate >= 0.0 && now >= last ==> Earned(rate, now - last) >= 0.0
    ensures rate >= 0.0 && last >= s ==> Earned(rate, last - s) >= 0.0
  {
  }

  /** The stored tokens are exactly the least slack over all windows. */
  lemma {:induction false} TokensAreLeastSlack(b: Bucket, h: seq<Call>)
    requires GoodHistory(b, h)
    ensures IsLeastSlack(b, h, LastTime(b, h), After(b, h).tokens)
    decreases |h|
  {
    if h == [] {
      assert Slack(b, h, 0, b.lastUpdate) == b.capacity;
    } else {
      TokensAfterCall(b, h);
    }
  }

  lemma {:induction false} TokensAfterCall(b: Bucket, h: seq<Call>)
    requires GoodHistory(b, h) && h != []
    ensures IsLeastSlack(b, h, LastTime(b, h), After(b, h).tokens)
    decreases |h|, 0
  {
    hide Earned;
    var n := |h| - 1;
    var g, now := h[..n], LastTime(b, h);
    GoodPrefix(b, h);
    TokensAreLeastSlack(b, g);
    ParametersStay(b, g);
    var before := After(b, g);
    var spent := (if Admitted(b, h, n) then h[n].size else 0) as real;
    var refilled := before.tokens + Earned(b.rate, now - LastTime(b, g));
    assert After(b, h).tokens == (if refilled > b.capacity then b.capacity else refilled) - spent;
    assert Slack(b, h, n + 1, now) == b.capacity - spent by {
      Elapse(b.rate, now, now, now);
      assert AdmittedFrom(b, g, n) == 0;
    }
    forall j: nat | j <= |h|
      ensures After(b, h).tokens <= Slack(b, h, j, now)
    {
      if j < |h| {
        SlackAfterCall(b, h, j, now);
        assert before.tokens <= Slack(b, g, j, LastTime(b, g));
      }
    }
    if refilled <= b.capacity {
      var j: nat :| j <= |g| && before.tokens == Slack(b, g, j, LastTime(b, g));
      SlackAfterCall(b, h, j, now);
      assert After(b, h).tokens == Slack(b, h, j, now);
    }
  }

  /** In every reachable state the tokens lie between zero and the capacity. */
  lemma {:induction false} TokensInRange(b: Bucket, h: seq<Call>)
    requires GoodHistory(b, h)
    ensures 0.0 <= After(b, h).tokens <= b.capacity
    decreases |h|
  {
    hide Earned;
    if h != [] {
      GoodPrefix(b, h);
      ParametersStay(b, h[..|h| - 1]);
      TokensInRange(b, h[..|h| - 1]);
      Elapse(b.rate, 0.0, LastTime(b, h[..|h| - 1]), LastTime(b, h));
    }
  }

  /** Window `j` leaves room for `n` more bytes at time `now`. */
  ghost predicate FitsWindow(b: Bucket, h: seq<Call>, j: nat, n: nat, now: real)
    requires j <= |h|
  {
    (AdmittedFrom(b, h, FirstCall(j)) + n) as real <= b.capacity + Earned(b.rate, now - WindowStart(b, h, j))
  }

  lemma FitsWindowMeans(b: Bucket, h: seq<Call>, j: nat, n: nat, now: real)
    requires j <= |h|
    ensures FitsWindow(b, h, j, n, now)
       <==> n as real <= Slack(b, h, j, LastTime(b, h)) + Earned(b.rate, now - LastTime(b, h))
  {
    hide Earned;
    Elapse(b.rate, WindowStart(b, h, j), LastTime(b, h), now);
  }

  lemma AllowMeans(b: Bucket, n: nat, now: real)
    requires b.rate > 0.0
    ensures AllowOn(b, n, now).1
       <==> n as real <= b.capacity && n as real <= b.tokens + Earned(b.rate, now - b.lastUpdate)
  {
    hide Earned;
  }

  lemma LeastSlackDecides(b: Bucket, h: seq<Call>, tokens: real, n: nat, now: real)
    requires IsLeastSlack(b, h, LastTime(b, h), tokens)
    ensures n as real <= tokens + Earned(b.rate, now - LastTime(b, h))
       <==> forall j: nat | j <= |h| :: FitsWindow(b, h, j, n, now)
  {
    hide Earned;
    hide FitsWindow;
    var last := LastTime(b, h);
    forall j: nat | j <= |h|
      ensures FitsWindow(b, h, j, n, now) <==> n as real <= Slack(b, h, j, last) + Earned(b.rate, now - last)
    {
      FitsWindowMeans(b, h, j, n, now);
    }
    var least: nat :| least <= |h| && tokens == Slack(b, h, least, last);
    assert FitsWindow(b, h, least, n, now) <==> n as real <= tokens + Earned(b.rate, now - last);
  }

  /**
   `Allow` is exact. It admits `n` bytes at time `now` if and only if they fit the burst capacity
   and, for the creation and every earlier call, what was admitted since then plus `n` is at most
   capacity + rate * (now - that time).
   */
  lemma AllowIsExact(b: Bucket, h: seq<Call>, n: nat, now: real)
    requires GoodHistory(b, h)
    ensures AllowOn(After(b, h), n, now).1
       <==> n as real <= b.capacity && forall j: nat | j <= |h| :: FitsWindow(b, h, j, n, now)
  {
    hide Earned;
    hide FitsWindow;
    TokensAreLeastSlack(b, h);
    ParametersStay(b, h);
    AllowMeans(After(b, h), n, now);
    LeastSlackDecides(b, h, After(b, h).tokens, n, now);
  }

  // ---------- Bytes in a time window ----------

  /** The bytes admitted at times from `from` to `to`. */
  function AdmittedBetween(b: Bucket, h: seq<Call>, from: real, to: real): nat {
    if h == [] then 0
    else
      var n := |h| - 1;
      AdmittedBetween(b, h[..n], from, to)
      + if from <= h[n].at <= to && Admitted(b, h, n) then h[n].size else 0
  }

  lemma {:induction false} BeforeTheWindow(b: Bucket, h: seq<Call>, from: real, to: real)
    requires forall k | 0 <= k < |h| :: h[k].at < from
    ensures AdmittedBetween(b, h, from, to) == 0
    decreases |h|
  {
    if h != [] {
      BeforeTheWindow(b, h[..|h| - 1], from, to);
    }
  }

  lemma {:induction false} WindowWithinSuffix(b: Bucket, h: seq<Call>, i: nat, from: real, to: real)
    requires i <= |h|
    requires forall k | 0 <= k < i :: h[k].at < from
    ensures AdmittedBetween(b, h, from, to) <= AdmittedFrom(b, h, i)
    decreases |h|
  {
    if i == |h| {
      BeforeTheWindow(b, h, from, to);
    } else {
      WindowWithinSuffix(b, h[..|h| - 1], i, from, to);
    }
  }

  /** In any time window at most capacity + rate * (length of the window) bytes are admitted. */
  lemma {:induction false} WindowBound(b: Bucket, h: seq<Call>, from: real, to: real)
    requires GoodHistory(b, h) && from <= to
    ensures AdmittedBetween(b, h, from, to) as real <= b.capacity + Earned(b.rate, to - from)
    decreases |h|
  {
    hide Earned;
    Elapse(b.rate, 0.0, from, to);
    if h == [] {
    } else if h[|h| - 1].at > to {
      GoodPrefix(b, h);
      WindowBound(b, h[..|h| - 1], from, to);
    } else if h[|h| - 1].at < from {
      BeforeTheWindow(b, h, from, to);
    } else {
      var i: nat :| i < |h| && h[i].at >= from && forall k | 0 <= k < i :: h[k].at < from by {
        FirstInWindow(h, from);
      }
      WindowWithinSuffix(b, h, i, from, to);
      TokensAreLeastSlack(b, h);
      TokensInRange(b, h);
      assert 0.0 <= Slack(b, h, i + 1, LastTime(b, h));
      Elapse(b.rate, from, h[i].at, to);
      Elapse(b.rate, h[i].at, LastTime(b, h), to);
    }
  }

  lemma {:induction false} FirstInWindow(h: seq<Call>, from: real)
    requires h != [] && h[|h| - 1].at >= from
    ensures exists i: nat :: i < |h| && h[i].at >= from && forall k | 0 <= k < i :: h[k].at < from
    decreases |h|
  {
    if k: nat :| k < |h| - 1 && h[k].at >= from {
      var g := h[..k + 1];
      FirstInWindow(g, from);
      var i: nat :| i < |g| && g[i].at >= from && forall m | 0 <= m < i :: g[m].at < from;
      assert h[i].at >= from && forall m | 0 <= m < i :: h[m].at < from by {
        forall m | 0 <= m < i
          ensures h[m].at < from
        {
          assert g[m] == h[m];
        }
      }
    } else {
      var i := |h| - 1;
      assert h[i].at >= from && forall k | 0 <= k < i :: h[k].at < from;
    }
  }

  /** `NewTokenBucket` with a positive rate starts every history above; otherwise nothing is limited. */
  lemma NewBucketStartsHistories(rateMbps: int, now: real)
    ensures rateMbps > 0 ==> GoodHistory(NewBucket(rateMbps, now), [])
    ensures var bytes := 125000.0 * rateMbps as real; NewBucket(rateMbps, now) == Bucket(bytes, bytes, bytes, now)
    ensures rateMbps <= 0 ==> forall n: nat, t: real ::
              AllowOn(NewBucket(rateMbps, now), n, t) == (NewBucket(rateMbps, now), true)
  {
  }
}
