/**
 The fixed-window rate limiter for one key.

 The cache keeps one counter per window index. The backend's `incr` either leaves the expiry of a
 counter alone or re-arms it to a constant of its own; both kinds are modelled. `incr` is atomic.
 The cache may drop a counter at any moment.
 */
module RateLimit {
  import opened Wrappers

  /** Clock readings, in seconds. */
  type Time = real

  datatype Config = Config(limit: int, window: nat, rearm: Option<real>)

  predicate Usable(c: Config) {
    c.window >= 1 && (c.rearm.Some? ==> c.rearm.value > 0.0)
  }

  datatype Entry = Entry(count: nat, expires: Time)

  type Cache = map<int, Entry>

  /** `int(time.time() // window_seconds)` */
  function Bucket(t: Time, window: nat): int
    requires window >= 1
  {
    (t / window as real).Floor
  }

  predicate Alive(cache: Cache, b: int, t: Time) {
    b in cache && t < cache[b].expires
  }

  function Count(cache: Cache, b: int, t: Time): nat {
    if Alive(cache, b, t) then cache[b].count else 0
  }

  /** One call of `rate_limit_exceeded`; `vanishes` says that the counter is dropped between `add`
      and `incr`. */
  function AfterHit(c: Config, cache: Cache, t: Time, vanishes: bool): Cache
    requires Usable(c)
  {
    var b := Bucket(t, c.window);
    var lifetime := t + (c.window + 60) as real;
    var added := if Alive(cache, b, t) then cache[b] else Entry(0, lifetime);
    if vanishes then cache[b := Entry(1, lifetime)]
    else cache[b := Entry(added.count + 1, if c.rearm.Some? then t + c.rearm.value else added.expires)]
  }

  predicate HitAllowed(c: Config, cache: Cache, t: Time, vanishes: bool)
    requires Usable(c)
  {
    AfterHit(c, cache, t, vanishes)[Bucket(t, c.window)].count <= c.limit
  }

  predicate Over(c: Config, cache: Cache, t: Time)
    requires Usable(c)
  {
    Count(cache, Bucket(t, c.window), t) > c.limit
  }

  // ----- Histories -----

  datatype Op = Hit(t: Time, vanishes: bool) | Culled(b: int)

  function AfterOp(c: Config, before: Cache, op: Op): Cache
    requires Usable(c)
  {
    match op
    case Hit(t, vanishes) => AfterHit(c, before, t, vanishes)
    case Culled(b) => before - {b}
  }

  function After(c: Config, ops: seq<Op>): Cache
    requires Usable(c)
  {
    if ops == [] then map[] else
    AfterOp(c, After(c, ops[..|ops| - 1]), ops[|ops| - 1])
  }

  predicate HitIn(c: Config, op: Op, b: int)
    requires Usable(c)
  {
    op.Hit? && Bucket(op.t, c.window) == b
  }

  predicate Allowed(c: Config, ops: seq<Op>, i: nat)
    requires Usable(c) && i < |ops| && ops[i].Hit?
  {
    HitAllowed(c, After(c, ops[..i]), ops[i].t, ops[i].vanishes)
  }

  function Bit(b: bool): nat {
    if b then 1 else 0
  }

  function Hits(c: Config, ops: seq<Op>, b: int): nat
    requires Usable(c)
  {
    if ops == [] then 0 else Hits(c, ops[..|ops| - 1], b) + Bit(HitIn(c, ops[|ops| - 1], b))
  }

  function AllowedHits(c: Config, ops: seq<Op>, b: int): nat
    requires Usable(c)
  {
    if ops == [] then 0 else
    AllowedHits(c, ops[..|ops| - 1], b) + Bit(HitIn(c, ops[|ops| - 1], b) && Allowed(c, ops, |ops| - 1))
  }

  /** How often the counter of window `b` was lost. */
  function Losses(c: Config, ops: seq<Op>, b: int): nat
    requires Usable(c)
  {
    if ops == [] then 0 else
    var op := ops[|ops| - 1];
    Losses(c, ops[..|ops| - 1], b) + Bit(op == Culled(b) || (HitIn(c, op, b) && op.vanishes))
  }

  function Budget(c: Config): nat {
    if c.limit >= 0 then c.limit else 0
  }

  function Min(a: nat, b: nat): nat {
    if a < b then a else b
  }

  // ----- Windows -----

  /** The instant at which window `b` begins. */
  function Start(b: int, window: nat): Time {
    b as real * window as real
  }

  lemma NextStart(b: int, window: nat)
    ensures Start(b + 1, window) == Start(b, window) + window as real
  {
    assert (b + 1) as real == b as real + 1.0;
  }

  lemma StartsInOrder(a: int, b: int, window: nat)
    requires a <= b
    ensures Start(a, window) <= Start(b, window)
  {
    ProductInt(a, b, window);
    WholeStart(a, window);
    WholeStart(b, window);
  }

  lemma Product(a: real, b: real, w: real)
    requires w > 0.0
    ensures a <= b ==> a * w <= b * w
    ensures a < b ==> a * w < b * w
  {
    if a < b {
      assert (b - a) * w > 0.0;
    }
  }

  lemma BucketBounds(t: Time, window: nat)
    requires window >= 1
    ensures Start(Bucket(t, window), window) <= t < Start(Bucket(t, window) + 1, window)
  {
    var w := window as real;
    var q := t / w;
    var f: real := q.Floor as real;
    assert q * w == t;
    Product(f, q, w);
    Product(q, f + 1.0, w);
    NextStart(Bucket(t, window), window);
  }

  /** The window index is the only integer with these bounds. */
  lemma BucketUnique(t: Time, window: nat, b: int)
    requires window >= 1
    requires Start(b, window) <= t < Start(b + 1, window)
    ensures Bucket(t, window) == b
  {
    BucketBounds(t, window);
    var k := Bucket(t, window);
    if k < b {
      StartsInOrder(k + 1, b, window);
    }
    if b < k {
      StartsInOrder(b + 1, k, window);
    }
  }

  /** No counter expires inside its own window. */
  predicate Covers(c: Config) {
    c.rearm.Some? ==> c.rearm.value >= c.window as real
  }

  ghost predicate Lasting(c: Config, cache: Cache)
    requires Usable(c)
  {
    forall b :: b in cache ==> cache[b].expires >= Start(b + 1, c.window)
  }

  lemma HitLasts(c: Config, cache: Cache, t: Time, vanishes: bool)
    requires Usable(c) && Covers(c) && Lasting(c, cache)
    ensures Lasting(c, AfterHit(c, cache, t, vanishes))
    ensures var b := Bucket(t, c.window); b in cache ==> Alive(cache, b, t)
  {
    var b := Bucket(t, c.window);
    BucketBounds(t, c.window);
    NextStart(b, c.window);
  }

  function Stored(cache: Cache, b: int): nat {
    if b in cache then cache[b].count else 0
  }

  /** The counter of every window, in every history. */
  lemma {:induction false} CounterInvariant(c: Config, ops: seq<Op>, b: int)
    requires Usable(c) && Covers(c)
    ensures Lasting(c, After(c, ops))
    ensures AllowedHits(c, ops, b) <= Budget(c) * Losses(c, ops, b) + Min(Stored(After(c, ops), b), Budget(c))
    ensures Losses(c, ops, b) == 0 ==>
              Stored(After(c, ops), b) == Hits(c, ops, b) && AllowedHits(c, ops, b) == Min(Hits(c, ops, b), Budget(c))
    decreases |ops|
  {
    if ops != [] {
      var front, op := ops[..|ops| - 1], ops[|ops| - 1];
      CounterInvariant(c, front, b);
      var before := After(c, front);
      if op.Hit? {
        HitLasts(c, before, op.t, op.vanishes);
      }
      assert Budget(c) * (Losses(c, front, b) + 1) == Budget(c) * Losses(c, front, b) + Budget(c);
    }
  }

  /** Exactly `limit` hits per window when the counter is never lost, and at most one more budget for
      each time it is. */
  lemma AllowedPerWindow(c: Config, ops: seq<Op>, b: int)
    requires Usable(c) && Covers(c)
    ensures Losses(c, ops, b) == 0 ==> AllowedHits(c, ops, b) == Min(Hits(c, ops, b), Budget(c))
    ensures AllowedHits(c, ops, b) <= Budget(c) * (Losses(c, ops, b) + 1)
  {
    CounterInvariant(c, ops, b);
    assert Budget(c) * (Losses(c, ops, b) + 1) == Budget(c) * Losses(c, ops, b) + Budget(c);
  }

  // ----- A backend whose incr shortens the lifetime -----

  ghost predicate ExactLimit(c: Config)
    requires Usable(c)
  {
    forall ops, b :: Losses(c, ops, b) == 0 ==> AllowedHits(c, ops, b) == Min(Hits(c, ops, b), Budget(c))
  }

  function HitsAt(t: Time, n: nat): seq<Op> {
    if n == 0 then [] else HitsAt(t, n - 1) + [Hit(t, false)]
  }

  /** What is left of `n` hits at the first instant of window 0. */
  function Fresh(c: Config, n: nat): Cache
    requires Usable(c)
  {
    if n == 0 then map[] else
    map[0 := Entry(n, if c.rearm.Some? then c.rearm.value else (c.window + 60) as real)]
  }

  lemma FreshHit(c: Config, n: nat)
    requires Usable(c)
    ensures Bucket(0.0, c.window) == 0
    ensures AfterHit(c, Fresh(c, n), 0.0, false) == Fresh(c, n + 1)
    ensures HitAllowed(c, Fresh(c, n), 0.0, false) <==> n < c.limit
  {
    BucketUnique(0.0, c.window, 0);
  }

  lemma OneMore(c: Config, ops: seq<Op>, op: Op, b: int)
    requires Usable(c)
    ensures After(c, ops + [op]) == AfterOp(c, After(c, ops), op)
    ensures Hits(c, ops + [op], b) == Hits(c, ops, b) + Bit(HitIn(c, op, b))
    ensures Losses(c, ops + [op], b) == Losses(c, ops, b) + Bit(op == Culled(b) || (HitIn(c, op, b) && op.vanishes))
    ensures AllowedHits(c, ops + [op], b) == AllowedHits(c, ops, b) +
              Bit(HitIn(c, op, b) && HitAllowed(c, After(c, ops), op.t, op.vanishes))
  {
    assert (ops + [op])[..|ops|] == ops;
  }

  lemma {:induction false} FirstHits(c: Config, t: Time, n: nat)
    requires Usable(c) && n <= Budget(c) && t == 0.0
    ensures var ops := HitsAt(t, n);
            && After(c, ops) == Fresh(c, n)
            && Hits(c, ops, 0) == AllowedHits(c, ops, 0) == n && Losses(c, ops, 0) == 0
  {
    if n > 0 {
      FirstHits(c, t, n - 1);
      FreshHit(c, n - 1);
      OneMore(c, HitsAt(t, n - 1), Hit(t, false), 0);
    }
  }

  /** A budget spent at the start of a window is spent again once the re-armed counter has expired. */
  lemma ShortRearmOverspends(c: Config)
    requires Usable(c) && c.limit >= 1 && !Covers(c)
    ensures !ExactLimit(c)
  {
    var first := HitsAt(0.0, c.limit);
    FirstHits(c, 0.0, c.limit);
    FreshHit(c, c.limit);
    var late := (c.rearm.value + c.window as real) / 2.0;
    BucketUnique(late, c.window, 0);
    var ops := first + [Hit(late, false)];
    OneMore(c, first, Hit(late, false), 0);
    assert !Alive(After(c, first), 0, late);
    assert AllowedHits(c, ops, 0) == c.limit + 1 && Losses(c, ops, 0) == 0;
  }

  /** The limiter allows exactly its limit in every window, whatever the times of the hits, exactly
      when the backend does not re-arm a counter for less than a window. */
  lemma ExactLimitExactly(c: Config)
    requires Usable(c) && c.limit >= 1
    ensures ExactLimit(c) <==> Covers(c)
  {
    if Covers(c) {
      forall ops, b | Losses(c, ops, b) == 0
        ensures AllowedHits(c, ops, b) == Min(Hits(c, ops, b), Budget(c))
      {
        AllowedPerWindow(c, ops, b);
      }
    } else {
      ShortRearmOverspends(c);
    }
  }

  // ----- Any interval one window long -----

  predicate HitBetween(op: Op, lo: Time, hi: Time) {
    op.Hit? && lo <= op.t < hi
  }

  function AllowedBetween(c: Config, ops: seq<Op>, lo: Time, hi: Time): nat
    requires Usable(c)
  {
    if ops == [] then 0 else
    AllowedBetween(c, ops[..|ops| - 1], lo, hi) +
    Bit(HitBetween(ops[|ops| - 1], lo, hi) && Allowed(c, ops, |ops| - 1))
  }

  /** An interval one window long meets at most two windows. */
  lemma TwoBuckets(t: Time, lo: Time, window: nat)
    requires window >= 1 && lo <= t < lo + window as real
    ensures Bucket(t, window) == Bucket(lo, window) || Bucket(t, window) == Bucket(lo, window) + 1
  {
    var b := Bucket(lo, window);
    BucketBounds(lo, window);
    NextStart(b, window);
    NextStart(b + 1, window);
    if t < Start(b + 1, window) {
      BucketUnique(t, window, b);
    } else {
      BucketUnique(t, window, b + 1);
    }
  }

  lemma {:induction false} IntervalSplits(c: Config, ops: seq<Op>, lo: Time)
    requires Usable(c)
    ensures var b := Bucket(lo, c.window);
            AllowedBetween(c, ops, lo, lo + c.window as real) <= AllowedHits(c, ops, b) + AllowedHits(c, ops, b + 1)
    decreases |ops|
  {
    if ops != [] {
      IntervalSplits(c, ops[..|ops| - 1], lo);
      var op := ops[|ops| - 1];
      if HitBetween(op, lo, lo + c.window as real) {
        TwoBuckets(op.t, lo, c.window);
      }
    }
  }

  /** At most twice the limit in any half-open interval one window long, and one more budget for each time
      that the counter of one of the two windows it meets is lost. */
  lemma TwiceTheLimit(c: Config, ops: seq<Op>, lo: Time)
    requires Usable(c) && Covers(c)
    ensures var b := Bucket(lo, c.window);
            AllowedBetween(c, ops, lo, lo + c.window as real) <=
              Budget(c) * (2 + Losses(c, ops, b) + Losses(c, ops, b + 1))
  {
    var b := Bucket(lo, c.window);
    var m, n := Losses(c, ops, b), Losses(c, ops, b + 1);
    IntervalSplits(c, ops, lo);
    AllowedPerWindow(c, ops, b);
    AllowedPerWindow(c, ops, b + 1);
    assert Budget(c) * (2 + m + n) == Budget(c) * (m + 1) + Budget(c) * (n + 1);
  }

  // ----- The peek -----

  /** The peek answers yes exactly when a hit of the current window has been rejected. */
  lemma PeekMeansRejected(c: Config, ops: seq<Op>, now: Time)
    requires Usable(c) && Covers(c) && c.limit >= 0
    requires Losses(c, ops, Bucket(now, c.window)) == 0
    ensures var b := Bucket(now, c.window);
            Over(c, After(c, ops), now) <==> AllowedHits(c, ops, b) < Hits(c, ops, b)
  {
    var b := Bucket(now, c.window);
    CounterInvariant(c, ops, b);
    BucketBounds(now, c.window);
  }

  // ----- The limiter -----

  /** The calls on one key, over a cache that may drop counters. */
  class Limiter {
    const config: Config
    var cache: Cache
    ghost var history: seq<Op>

    ghost predicate Valid()
      reads this
    {
      Usable(config) && cache == After(config, history)
    }

    constructor (config: Config)
      requires Usable(config)
      ensures Valid() && this.config == config && history == []
    {
      this.config := config;
      cache := map[];
      history := [];
    }

    /** The cache drops a counter. */
    method Cull(b: int)
      requires Valid()
      modifies this
      ensures Valid() && history == old(history) + [Culled(b)]
    {
      OneMore(config, history, Culled(b), b);
      cache := cache - {b};
      history := history + [Culled(b)];
    }

    /** `add` a counter unless there is one, `incr` it, and `set` it to 1 if it is gone by then. */
    method CountHit(now: Time, vanishes: bool) returns (count: nat)
      requires Usable(config)
      modifies this`cache
      ensures cache == AfterHit(config, old(cache), now, vanishes)
      ensures count == cache[Bucket(now, config.window)].count
    {
      var b := Bucket(now, config.window);
      if !(b in cache && now < cache[b].expires) {
        cache := cache[b := Entry(0, now + (config.window + 60) as real)];
      }
      if vanishes {
        cache := cache - {b};
      }
      if b in cache {
        count := cache[b].count + 1;
        var expires := if config.rearm.Some? then now + config.rearm.value else cache[b].expires;
        cache := cache[b := Entry(count, expires)];
      } else {
        cache := cache[b := Entry(1, now + (config.window + 60) as real)];
        count := 1;
      }
    }

    /** One hit. While the counter of the window lives, the hit is rejected exactly when the window has had
        its budget of hits before. */
    method RateLimitExceeded(now: Time, vanishes: bool) returns (exceeded: bool)
      requires Valid()
      modifies this
      ensures Valid() && history == old(history) + [Hit(now, vanishes)]
      ensures exceeded <==> !HitAllowed(config, After(config, old(history)), now, vanishes)
      ensures var b := Bucket(now, config.window);
              Covers(config) && config.limit >= 0 && Losses(config, history, b) == 0 ==>
                (exceeded <==> Hits(config, old(history), b) >= config.limit)
    {
      var count := CountHit(now, vanishes);
      exceeded := count > config.limit;
      HitCounted(config, history, now, vanishes);
      OneMore(config, history, Hit(now, vanishes), Bucket(now, config.window));
      history := history + [Hit(now, vanishes)];
    }

    /** The peek. While the counter of the window lives, it is true exactly when a hit of the window has been
        rejected. */
    method RateLimitOver(now: Time) returns (over: bool)
      requires Valid()
      ensures over <==> Count(cache, Bucket(now, config.window), now) > config.limit
      ensures var b := Bucket(now, config.window);
              Covers(config) && config.limit >= 0 && Losses(config, history, b) == 0 ==>
                (over <==> AllowedHits(config, history, b) < Hits(config, history, b))
    {
      var b := Bucket(now, config.window);
      var count := if b in cache && now < cache[b].expires then cache[b].count else 0;
      over := count > config.limit;
      if Covers(config) && config.limit >= 0 && Losses(config, history, b) == 0 {
        PeekMeansRejected(config, history, now);
      }
    }
  }

  /** A hit in a window whose counter lives is rejected exactly when the budget is spent. */
  lemma HitCounted(c: Config, ops: seq<Op>, t: Time, vanishes: bool)
    requires Usable(c)
    ensures var b := Bucket(t, c.window);
            Covers(c) && c.limit >= 0 && Losses(c, ops + [Hit(t, vanishes)], b) == 0 ==>
              (HitAllowed(c, After(c, ops), t, vanishes) <==> Hits(c, ops, b) < c.limit)
  {
    var b := Bucket(t, c.window);
    OneMore(c, ops, Hit(t, vanishes), b);
    if Covers(c) {
      CounterInvariant(c, ops, b);
      HitLasts(c, After(c, ops), t, vanishes);
    }
  }

  // ----- The reset time -----

  /** `max(1, window_seconds - int(time.time()) % window_seconds)`, for a clock that is not negative. */
  function SecondsToReset(t: Time, window: nat): int
    requires window >= 1
  {
    var left := window - t.Floor % window;
    if left > 1 then left else 1
  }

  lemma WholeStart(b: int, window: nat)
    ensures Start(b, window) == (b * window) as real
  {}

  lemma BucketByWholeSeconds(t: Time, window: nat)
    requires window >= 1
    ensures Bucket(t, window) == t.Floor / window
  {
    var b := t.Floor / window;
    assert t.Floor == b * window + t.Floor % window;
    WholeStart(b, window);
    NextStart(b, window);
    BucketUnique(t, window, b);
  }

  /** The least positive number of whole seconds after which the window index has moved on. */
  lemma ResetIsLeast(t: Time, window: nat, n: nat)
    requires window >= 1 && t >= 0.0 && n >= 1
    ensures SecondsToReset(t, window) >= 1
    ensures Bucket(t + n as real, window) > Bucket(t, window) <==> n >= SecondsToReset(t, window)
  {
    BucketByWholeSeconds(t, window);
    BucketByWholeSeconds(t + n as real, window);
    assert (t + n as real).Floor == t.Floor + n;
    var b, r := t.Floor / window, t.Floor % window;
    assert t.Floor == b * window + r;
    if n >= window - r {
      DivAtLeast(t.Floor + n, window, b + 1);
    } else {
      DivBelow(t.Floor + n, window, b + 1);
    }
  }

  lemma ProductInt(a: int, b: int, w: nat)
    requires a <= b
    ensures a * w <= b * w
  {
    assert (b - a) * w >= 0;
  }

  lemma DivAtLeast(x: int, window: nat, b: int)
    requires window >= 1 && x >= b * window
    ensures x / window >= b
  {
    var q := x / window;
    assert x == q * window + x % window;
    assert (b - 1) * window == b * window - window;
    if q <= b - 1 {
      ProductInt(q, b - 1, window);
    }
  }

  lemma DivBelow(x: int, window: nat, b: int)
    requires window >= 1 && x < b * window
    ensures x / window < b
  {
    var q := x / window;
    assert x == q * window + x % window;
    if q >= b {
      ProductInt(b, q, window);
    }
  }
}
