/** The token buckets in front of the RPC (src/tx-rpc.ts,
    contrib/rpc-agent-wave-422-425/rpc-token-bucket.ts).  Tokens are reals, times are whole
    milliseconds.

    The reference does not know about tokens: a call may pass when no stretch of time that ends
    with it would see more than the capacity plus what that stretch refills. */
module RateLimiting {
  import opened Prelude

  datatype Config = Config(capacity: real, refillPerMs: real)

  datatype Call = Call(at: int, cost: real)

  /** The creation of the bucket (a call that asks for nothing), then the calls it answered.  Reading
      the tokens or the waiting time refills the bucket, like a call that asks for nothing. */
  type History = h: seq<Call> | h != [] witness [Call(0, 0.0)]

  function MinReal(a: real, b: real): real { if a <= b then a else b }

  function MaxReal(a: real, b: real): real { if a <= b then b else a }

  // ----- The bucket -----

  function Refill(c: Config, tokens: real, elapsed: int): real {
    MinReal(c.capacity, tokens + elapsed as real * c.refillPerMs)
  }

  /** What the bucket holds after its history. */
  function Tokens(c: Config, h: History): real
    decreases |h|, 0
  {
    if |h| == 1 then c.capacity
    else
      var available := Available(c, h[..|h| - 1], h[|h| - 1].at);
      if available >= h[|h| - 1].cost then available - h[|h| - 1].cost else available
  }

  /** What it would hold at time `at`. */
  function Available(c: Config, h: History, at: int): real
    decreases |h|, 1
  {
    Refill(c, Tokens(c, h), at - h[|h| - 1].at)
  }

  class TokenBucket {
    const config: Config
    var tokens: real
    var lastRefill: int
    ghost var history: History

    ghost predicate Valid()
      reads this
    {
      tokens == Tokens(config, history) && lastRefill == history[|history| - 1].at
    }

    constructor (config: Config, now: int)
      ensures Valid() && this.config == config && history == [Call(now, 0.0)]
    {
      this.config := config;
      tokens, lastRefill := config.capacity, now;
      history := [Call(now, 0.0)];
    }

    method RefillNow(now: int)
      modifies this`tokens, this`lastRefill
      ensures tokens == Refill(config, old(tokens), now - old(lastRefill)) && lastRefill == now
    {
      var elapsed := now - lastRefill;
      tokens := MinReal(config.capacity, tokens + elapsed as real * config.refillPerMs);
      lastRefill := now;
    }

    /** Admits the call exactly when every window has room for it. */
    method TryConsume(now: int, cost: real) returns (admitted: bool)
      requires Valid()
      modifies this
      ensures Valid() && history == old(history) + [Call(now, cost)]
      ensures admitted <==> FitsEveryWindow(config, old(history), now, cost)
    {
      AdmitsWithRoomEverywhere(config, history, now, cost);
      RefillNow(now);
      assert (history + [Call(now, cost)])[..|history|] == history;
      history := history + [Call(now, cost)];
      if tokens >= cost {
        tokens := tokens - cost;
        return true;
      }
      return false;
    }

    /** The least whole number of milliseconds after which one token is there, if nobody else
        takes it; a bucket smaller than one token never has it. */
    method MsUntilNextToken(now: int) returns (wait: int)
      requires Valid() && config.refillPerMs > 0.0
      modifies this
      ensures Valid() && history == old(history) + [Call(now, 0.0)]
      ensures wait >= 0 && forall at :: now <= at < now + wait ==> !FitsEveryWindow(config, history, at, 1.0)
      ensures config.capacity >= 1.0 ==> FitsEveryWindow(config, history, now + wait, 1.0)
      ensures config.capacity < 1.0 ==> forall at: int :: !FitsEveryWindow(config, history, at, 1.0)
    {
      RefillNow(now);
      assert (history + [Call(now, 0.0)])[..|history|] == history;
      history := history + [Call(now, 0.0)];
      if tokens >= 1.0 {
        wait := 0;
      } else {
        wait := Ceil((1.0 - tokens) / config.refillPerMs);
      }
      WaitIsLeast(config, history, wait);
    }
  }

  /** From a history that ends now: the deficit, divided by the rate and rounded up, is the least wait. */
  lemma WaitIsLeast(c: Config, h: History, wait: int)
    requires c.refillPerMs > 0.0
    requires wait == if Tokens(c, h) >= 1.0 then 0 else Ceil((1.0 - Tokens(c, h)) / c.refillPerMs)
    ensures var now := h[|h| - 1].at;
      && wait >= 0 && (forall at :: now <= at < now + wait ==> !FitsEveryWindow(c, h, at, 1.0))
      && (c.capacity >= 1.0 ==> FitsEveryWindow(c, h, now + wait, 1.0))
      && (c.capacity < 1.0 ==> forall at: int :: !FitsEveryWindow(c, h, at, 1.0))
  {
    var now := h[|h| - 1].at;
    forall at: int | now <= at ensures FitsEveryWindow(c, h, at, 1.0) <==> c.capacity >= 1.0 && at - now >= wait {
      OneTokenFits(c, h, at - now, wait);
      assert now + (at - now) == at;
    }
    assert wait >= 0 by {
      OneTokenFits(c, h, 0, wait);
    }
    forall at: int ensures c.capacity < 1.0 ==> !FitsEveryWindow(c, h, at, 1.0) {
    }
  }

  lemma OneTokenFits(c: Config, h: History, v: nat, wait: int)
    requires c.refillPerMs > 0.0
    requires wait == if Tokens(c, h) >= 1.0 then 0 else Ceil((1.0 - Tokens(c, h)) / c.refillPerMs)
    ensures wait >= 0
    ensures FitsEveryWindow(c, h, h[|h| - 1].at + v, 1.0) <==> c.capacity >= 1.0 && v >= wait
  {
    AdmitsWithRoomEverywhere(c, h, h[|h| - 1].at + v, 1.0);
    EnoughTokens(c, Tokens(c, h), v, wait);
  }

  lemma EnoughTokens(c: Config, tokens: real, v: nat, wait: int)
    requires c.refillPerMs > 0.0 && wait == if tokens >= 1.0 then 0 else Ceil((1.0 - tokens) / c.refillPerMs)
    ensures wait >= 0 && (Refill(c, tokens, v) >= 1.0 <==> c.capacity >= 1.0 && v >= wait)
  {
    if tokens < 1.0 {
      CeilIsLeastWait(1.0 - tokens, c.refillPerMs, v);
    } else {
      Scale(0.0, v as real, c.refillPerMs);
    }
  }

  lemma CeilIsLeastWait(deficit: real, rate: real, v: int)
    requires deficit > 0.0 && rate > 0.0
    ensures Ceil(deficit / rate) > 0 && (v as real * rate >= deficit <==> v >= Ceil(deficit / rate))
  {
    var x := deficit / rate;
    assert x * rate == deficit;
    if x <= 0.0 {
      Scale(x, 0.0, rate);
    }
    if v as real >= x {
      Scale(x, v as real, rate);
    } else {
      StrictScale(v as real, x, rate);
    }
  }

  lemma Scale(a: real, b: real, m: real)
    requires a <= b && m >= 0.0
    ensures a * m <= b * m
  {
  }

  lemma StrictScale(a: real, b: real, m: real)
    requires a < b && m > 0.0
    ensures a * m < b * m
  {
  }

  // ----- The reference: room in every window -----

  /** What the `i`-th call took. */
  function Taken(c: Config, h: History, i: nat): real
    requires i < |h|
    decreases |h|, 0
  {
    if i > 0 && FitsEveryWindow(c, h[..i], h[i].at, h[i].cost) then h[i].cost else 0.0
  }

  /** What the calls from the `k`-th on took. */
  function TakenSince(c: Config, h: History, k: nat): real
    requires k <= |h|
    decreases |h|, 1, |h| - k
  {
    if k == |h| then 0.0 else Taken(c, h, k) + TakenSince(c, h, k + 1)
  }

  /** What a window that opened with the `k`-th call still has at time `at`. */
  function Room(c: Config, h: History, k: nat, at: int): real
    requires k < |h|
    decreases |h|, 2
  {
    c.capacity + (at - h[k].at) as real * c.refillPerMs - TakenSince(c, h, k)
  }

  predicate FitsEveryWindow(c: Config, h: History, at: int, cost: real)
    decreases |h|, 3
  {
    cost <= c.capacity && forall k :: 0 <= k < |h| ==> cost <= Room(c, h, k, at)
  }

  lemma {:induction false} TakenSinceSplit(c: Config, h: History, k: nat)
    requires |h| > 1 && k < |h|
    ensures TakenSince(c, h, k)
         == (if k == |h| - 1 then 0.0 else TakenSince(c, h[..|h| - 1], k)) + Taken(c, h, |h| - 1)
    decreases |h| - k
  {
    var f := h[..|h| - 1];
    if k < |h| - 1 {
      TakenSinceSplit(c, h, k + 1);
      assert f[..k] == h[..k];
      assert k + 1 < |h| - 1 || TakenSince(c, f, k + 1) == 0.0;
    }
  }

  /** The tokens are the room of the tightest window. */
  lemma {:induction false} TokensAreTheLeastRoom(c: Config, h: History, at: int)
    ensures Available(c, h, at) <= c.capacity
    ensures forall k :: 0 <= k < |h| ==> Available(c, h, at) <= Room(c, h, k, at)
    ensures Available(c, h, at) == c.capacity || exists k :: 0 <= k < |h| && Available(c, h, at) == Room(c, h, k, at)
    decreases |h|, 0
  {
    var n := |h| - 1;
    var gain := (at - h[n].at) as real * c.refillPerMs;
    if n == 0 {
      NothingTakenAtCreation(c, h);
      assert Room(c, h, 0, at) == c.capacity + gain;
    } else {
      var f, last := h[..n], h[n];
      TokensAreTheLeastRoom(c, f, last.at);
      AdmitsWithRoomEverywhere(c, f, last.at, last.cost);
      var tokens, taken := Available(c, f, last.at), Taken(c, h, n);
      TokensStep(c, h, at, tokens, taken, gain);
      forall k | 0 <= k < |h|
        ensures Room(c, h, k, at) == (if k == n then c.capacity else Room(c, f, k, last.at)) + gain - taken
      {
        RoomStep(c, h, k, at, gain);
      }
      var k :| 0 <= k <= n && tokens == if k == n then c.capacity else Room(c, f, k, last.at);
      assert Room(c, h, k, at) == tokens + gain - taken;
    }
  }

  lemma TokensStep(c: Config, h: History, at: int, tokens: real, taken: real, gain: real)
    requires |h| > 1 && gain == (at - h[|h| - 1].at) as real * c.refillPerMs
    requires tokens == Available(c, h[..|h| - 1], h[|h| - 1].at) && taken == Taken(c, h, |h| - 1)
    requires tokens >= h[|h| - 1].cost <==> FitsEveryWindow(c, h[..|h| - 1], h[|h| - 1].at, h[|h| - 1].cost)
    ensures Available(c, h, at) == MinReal(c.capacity, tokens - taken + gain)
  {
  }

  lemma RoomStep(c: Config, h: History, k: nat, at: int, gain: real)
    requires |h| > 1 && k < |h| && gain == (at - h[|h| - 1].at) as real * c.refillPerMs
    ensures var n := |h| - 1;
      Room(c, h, k, at) == (if k == n then c.capacity else Room(c, h[..n], k, h[n].at)) + gain - Taken(c, h, n)
  {
    TakenSinceSplit(c, h, k);
    Distribute((at - h[|h| - 1].at) as real, (h[|h| - 1].at - h[k].at) as real, c.refillPerMs);
  }

  lemma Distribute(a: real, b: real, m: real)
    ensures (a + b) * m == a * m + b * m
  {
  }

  /** The bucket has the tokens for a call exactly when every window has room for it. */
  lemma AdmitsWithRoomEverywhere(c: Config, h: History, at: int, cost: real)
    ensures Available(c, h, at) >= cost <==> FitsEveryWindow(c, h, at, cost)
    decreases |h|, 1
  {
    TokensAreTheLeastRoom(c, h, at);
  }

  // ----- The rate bound -----

  /** What the calls from `i` to `j` took, both included. */
  function TakenWithin(c: Config, h: History, i: nat, j: nat): real
    requires i <= j < |h|
  {
    TakenSince(c, h[..j + 1], i)
  }

  ghost predicate Chronological(h: History) {
    forall i, j :: 0 <= i <= j < |h| ==> h[i].at <= h[j].at
  }

  /** The most the window may cost. */
  function Limit(c: Config, elapsed: int): real {
    MaxReal(0.0, c.capacity) + elapsed as real * MaxReal(0.0, c.refillPerMs)
  }

  /** In every window between two calls of every run on a clock that does not run backwards, the
      calls admitted cost at most the capacity plus what the window refills. */
  lemma RateIsBounded(c: Config, h: History, i: nat, j: nat)
    requires Chronological(h) && i <= j < |h| && forall call <- h :: call.cost >= 0.0
    ensures TakenWithin(c, h, i, j) <= Limit(c, h[j].at - h[i].at)
    ensures c.capacity >= 0.0 && c.refillPerMs >= 0.0 ==>
      TakenWithin(c, h, i, j) <= c.capacity + (h[j].at - h[i].at) as real * c.refillPerMs
  {
    TakenIsLimited(c, h, i, j);
  }

  lemma {:induction false} TakenIsLimited(c: Config, h: History, i: nat, j: nat)
    requires Chronological(h) && i <= j < |h| && forall call <- h :: call.cost >= 0.0
    ensures TakenWithin(c, h, i, j) <= Limit(c, h[j].at - h[i].at)
  {
    var w := h[..j + 1];
    assert w[j] == h[j] && w[i] == h[i] && h[i].at <= h[j].at;
    if j == 0 {
      NothingTakenAtCreation(c, w);
    } else if Taken(c, w, j) != 0.0 {
      TakenFitsWindow(c, w, i);
      MoreGenerous(c, h[j].at - h[i].at);
    } else {
      TakenSinceSplit(c, w, i);
      MoreGenerous(c, h[j].at - h[i].at);
      if i < j {
        assert w[..j] == h[..j - 1 + 1];
        TakenIsLimited(c, h, i, j - 1);
        assert h[j - 1].at <= h[j].at;
        LaterIsLooser(c, h[j - 1].at - h[i].at, h[j].at - h[i].at);
      }
    }
  }

  lemma MoreGenerous(c: Config, elapsed: nat)
    ensures Limit(c, elapsed) >= 0.0 && Limit(c, elapsed) >= c.capacity + elapsed as real * c.refillPerMs
  {
    Scale(0.0, elapsed as real, MaxReal(0.0, c.refillPerMs));
    ScaleRate(elapsed as real, c.refillPerMs, MaxReal(0.0, c.refillPerMs));
  }

  lemma LaterIsLooser(c: Config, a: int, b: int)
    requires a <= b
    ensures Limit(c, a) <= Limit(c, b)
  {
    Scale(a as real, b as real, MaxReal(0.0, c.refillPerMs));
  }

  lemma NothingTakenAtCreation(c: Config, h: History)
    requires |h| == 1
    ensures TakenSince(c, h, 0) == 0.0
  {
    assert TakenSince(c, h, 1) == 0.0;
  }

  /** A window that ends with an admitted call holds no more than it may. */
  lemma TakenFitsWindow(c: Config, w: History, i: nat)
    requires |w| > 1 && i < |w| && Taken(c, w, |w| - 1) != 0.0
    ensures TakenSince(c, w, i) <= c.capacity + (w[|w| - 1].at - w[i].at) as real * c.refillPerMs
  {
    var f, last := w[..|w| - 1], w[|w| - 1];
    TakenSinceSplit(c, w, i);
    assert FitsEveryWindow(c, f, last.at, last.cost);
    if i < |f| {
      assert last.cost <= Room(c, f, i, last.at);
    }
  }

  lemma ScaleRate(elapsed: real, rate: real, more: real)
    requires elapsed >= 0.0 && rate <= more
    ensures elapsed * rate <= elapsed * more
  {
  }
}
