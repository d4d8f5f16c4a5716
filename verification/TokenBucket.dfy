/**
 * The rate-limit script: a token bucket that is refilled only when it is asked,
 * kept in a Redis hash that expires. Token counts are scaled by the window in
 * milliseconds, so that one whole token is `Window(c)` units and every
 * refill is a whole number.
 */
module TokenBucket {
  import Bits
  import opened Integers

  datatype Config = Config(rate: int, windowSeconds: int)

  predicate Usable(c: Config) {
    c.rate >= 1 && c.windowSeconds >= 1
  }

  function Window(c: Config): int {
    c.windowSeconds * 1000
  }

  /** A full bucket. */
  function Cap(c: Config): int {
    c.rate * Window(c)
  }

  /** The hash behind a key: absent, or with its two fields and its expiry time. */
  datatype Key = Absent | Stored(tokens: int, last: int, expireAt: int)

  datatype Reply = Reply(allowed: bool, wait: int, remaining: int)

  function CeilDiv(a: int, b: int): int
    requires b > 0
  {
    (a + b - 1) / b
  }

  /** What Redis returns for the key: an expired hash is gone. */
  function Fetch(k: Key, now: int): Key {
    if k.Stored? && now > k.expireAt then Absent else k
  }

  /** Tokens after the refill. */
  function Level(c: Config, k: Key, now: int): int {
    var data := Fetch(k, now);
    var tokens := if data.Absent? then Cap(c) else data.tokens;
    var last := if data.Absent? then now else data.last;
    Min(Cap(c), tokens + Max(0, now - last) * c.rate)
  }

  function Answer(c: Config, level: int): Reply
    requires Usable(c)
  {
    if level < Window(c) then Reply(false, CeilDiv(Window(c) - level, c.rate), level / Window(c))
    else Reply(true, 0, (level - Window(c)) / Window(c))
  }

  /** The key after one run of the script: a denial writes nothing. */
  function After(c: Config, k: Key, now: int): Key {
    var level := Level(c, k, now);
    if level < Window(c) then k
    else Stored(level - Window(c), now, now + CeilDiv(Window(c), 1000) * 2 * 1000)
  }

  /** One rate-limit key of Redis and the script that reads and rewrites it. */
  class RateLimiter {
    const config: Config
    var present: bool
    var tokens: int
    var last: int
    var expireAt: int

    function View(): Key
      reads this
    {
      if present then Stored(tokens, last, expireAt) else Absent
    }

    constructor (config: Config)
      ensures View() == Absent && this.config == config
    {
      this.config := config;
      present, tokens, last, expireAt := false, 0, 0, 0;
    }

    method Check(now: int) returns (reply: Reply)
      requires Usable(config)
      modifies this
      ensures View() == After(config, old(View()), now)
      ensures reply == Answer(config, Level(config, old(View()), now))
    {
      var available := config.rate * Window(config);
      var since := now;
      if present && now <= expireAt {
        available, since := tokens, last;
      }
      var elapsed := Max(0, now - since);
      var refill := elapsed * config.rate;
      available := Min(config.rate * Window(config), available + refill);
      if available < Window(config) {
        var wait := CeilDiv(Window(config) - available, config.rate);
        return Reply(false, wait, available / Window(config));
      }
      available := available - Window(config);
      present, tokens, last := true, available, now;
      expireAt := now + CeilDiv(Window(config), 1000) * 2 * 1000;
      return Reply(true, 0, available / Window(config));
    }
  }

  // ---- Runs

  function Replies(c: Config, k: Key, times: seq<int>): (replies: seq<Reply>)
    requires Usable(c)
    ensures |replies| == |times|
    decreases |times|
  {
    if times == [] then []
    else [Answer(c, Level(c, k, times[0]))] + Replies(c, After(c, k, times[0]), times[1..])
  }

  function Final(c: Config, k: Key, times: seq<int>): Key
    requires Usable(c)
    decreases |times|
  {
    if times == [] then k else Final(c, After(c, k, times[0]), times[1..])
  }

  predicate Nondecreasing(times: seq<int>) {
    forall i, j | 0 <= i < j < |times| :: times[i] <= times[j]
  }

  /** A stored bucket holds between none and all but one of its tokens, and lives for two windows. */
  predicate Inv(c: Config, k: Key, now: int) {
    k.Stored? ==> 0 <= k.tokens <= Cap(c) - Window(c) && k.last <= now && k.expireAt == k.last + 2 * Window(c)
  }

  lemma CapFits(c: Config)
    requires Usable(c)
    ensures Window(c) >= 1000 && Cap(c) >= Window(c) && Cap(c) >= c.rate
    ensures CeilDiv(Window(c), 1000) * 2 * 1000 == 2 * Window(c)
  {
    assert c.rate * Window(c) >= Window(c);
    assert c.rate * Window(c) >= c.rate;
  }

  lemma Product(a: int, b: int)
    requires a >= 0 && b >= 0
    ensures a * b >= 0
  {
  }

  lemma LevelInRange(c: Config, k: Key, now: int)
    requires Usable(c) && Inv(c, k, now)
    ensures 0 <= Level(c, k, now) <= Cap(c)
    ensures k.Absent? ==> Level(c, k, now) == Cap(c)
  {
    CapFits(c);
    if k.Stored? {
      Product(now - k.last, c.rate);
    }
  }

  lemma AfterKeepsInv(c: Config, k: Key, now: int, later: int)
    requires Usable(c) && Inv(c, k, now) && now <= later
    ensures Inv(c, After(c, k, now), later)
  {
    CapFits(c);
    LevelInRange(c, k, now);
  }

  lemma {:induction false} RunKeepsInv(c: Config, k: Key, times: seq<int>, now: int)
    requires Usable(c) && Nondecreasing(times) && (times != [] ==> Inv(c, k, times[0]) && times[|times| - 1] <= now)
    requires times == [] ==> Inv(c, k, now)
    ensures Inv(c, Final(c, k, times), now)
    ensures forall r | r in Replies(c, k, times) :: 0 <= r.remaining < c.rate && (r.allowed <==> r.wait == 0)
    decreases |times|
  {
    if times != [] {
      AfterKeepsInv(c, k, times[0], if |times| > 1 then times[1] else now);
      RunKeepsInv(c, After(c, k, times[0]), times[1..], now);
      AnswerFits(c, k, times[0]);
    }
  }

  lemma AnswerFits(c: Config, k: Key, now: int)
    requires Usable(c) && Inv(c, k, now)
    ensures var r := Answer(c, Level(c, k, now));
            0 <= r.remaining < c.rate && r.wait >= 0 && (r.allowed <==> r.wait == 0)
  {
    CapFits(c);
    LevelInRange(c, k, now);
    AnswerOfLevel(c, Level(c, k, now), Window(c));
  }

  lemma AnswerOfLevel(c: Config, level: int, w: int)
    requires Usable(c) && w == Window(c) && 0 <= level <= c.rate * w
    ensures var r := Answer(c, level);
            0 <= r.remaining < c.rate && r.wait >= 0 && (r.allowed <==> r.wait == 0)
  {
    if level < w {
      FractionIsZero(level, w);
      CeilPositive(w - level, c.rate);
    } else {
      QuotientBelow(level - w, w, c.rate);
    }
  }

  lemma FractionIsZero(a: int, w: int)
    requires 0 <= a < w
    ensures a / w == 0
  {
  }

  lemma CeilPositive(a: int, b: int)
    requires a > 0 && b > 0
    ensures CeilDiv(a, b) > 0
  {
    CeilIsLeast(a, b, 0);
  }

  lemma QuotientBelow(a: int, w: int, r: int)
    requires w > 0 && 0 <= a && a + w <= r * w
    ensures 0 <= a / w < r
  {
    assert a / w * w + a % w == a;
    MulCancel(a / w, r, w);
  }

  lemma MulCancel(a: int, b: int, m: int)
    requires m > 0 && a * m < b * m
    ensures a < b
  {
    if a >= b {
      MulMonotone(b, a, m);
    }
  }

  lemma MulMonotone(a: int, b: int, m: int)
    requires a <= b && m >= 0
    ensures a * m <= b * m
  {
  }

  /** The rounded-up quotient is the least number of steps of size b that cover a. */
  lemma CeilIsLeast(a: int, b: int, d: int)
    requires b > 0
    ensures d >= CeilDiv(a, b) <==> d * b >= a
  {
    var q := CeilDiv(a, b);
    assert q * b >= a && (q - 1) * b < a by {
      assert (a + b - 1) / b * b + (a + b - 1) % b == a + b - 1;
    }
    if d >= q {
      MulMonotone(q, d, b);
    } else {
      MulMonotone(d, q - 1, b);
    }
  }

  // ---- The eager bucket

  /** A bucket that really adds `rate` units every millisecond, up to its cap, and never expires. */
  datatype Eager = Eager(level: int, at: int)

  function Tick(c: Config, level: int, ms: nat): int
    decreases ms
  {
    if ms == 0 then level else Tick(c, Min(Cap(c), level + c.rate), ms - 1)
  }

  function EagerLevel(c: Config, e: Eager, now: int): int
    requires e.at <= now
  {
    Tick(c, e.level, now - e.at)
  }

  function EagerAfter(c: Config, e: Eager, now: int): Eager
    requires e.at <= now
  {
    var level := EagerLevel(c, e, now);
    Eager(if level < Window(c) then level else level - Window(c), now)
  }

  function EagerReplies(c: Config, e: Eager, times: seq<int>): seq<Reply>
    requires Usable(c) && Nondecreasing(times) && (times != [] ==> e.at <= times[0])
    decreases |times|
  {
    if times == [] then []
    else [Answer(c, EagerLevel(c, e, times[0]))] + EagerReplies(c, EagerAfter(c, e, times[0]), times[1..])
  }

  lemma {:induction false} TickClosedForm(c: Config, level: int, ms: nat)
    requires Usable(c) && level <= Cap(c)
    ensures Tick(c, level, ms) == Min(Cap(c), level + ms * c.rate)
    decreases ms
  {
    if ms > 0 {
      TickClosedForm(c, Min(Cap(c), level + c.rate), ms - 1);
      assert ms * c.rate == c.rate + (ms - 1) * c.rate;
      Product(ms - 1, c.rate);
    }
  }

  /** However long the key is left alone, or expired, it reads like the bucket that ticked on. */
  lemma LevelTicks(c: Config, k: Key, then_: int, now: int)
    requires Usable(c) && Inv(c, k, then_) && then_ <= now
    ensures Level(c, k, now) == Tick(c, Level(c, k, then_), now - then_)
  {
    CapFits(c);
    LevelInRange(c, k, then_);
    TickClosedForm(c, Level(c, k, then_), now - then_);
    Product(now - then_, c.rate);
    if k.Stored? {
      assert (now - k.last) * c.rate == (then_ - k.last) * c.rate + (now - then_) * c.rate;
      ExpiredIsFull(c, k, now);
      ExpiredIsFull(c, k, then_);
    }
  }

  lemma ExpiredIsFull(c: Config, k: Key, now: int)
    requires Usable(c) && k.Stored? && Inv(c, k, k.last)
    ensures now > k.expireAt ==> k.tokens + (now - k.last) * c.rate >= Cap(c)
  {
    if now > k.expireAt {
      CapFits(c);
      MulMonotone(Window(c), now - k.last, c.rate);
    }
  }

  /**
   * On every trace of a nondecreasing clock the lazy bucket with its expiring
   * key gives the very replies of the eager bucket: expiry cannot be observed.
   */
  lemma {:induction false} LazyIsEager(c: Config, k: Key, e: Eager, times: seq<int>)
    requires Usable(c) && Nondecreasing(times) && (times != [] ==> e.at <= times[0])
    requires Inv(c, k, e.at) && e.level == Level(c, k, e.at)
    ensures Replies(c, k, times) == EagerReplies(c, e, times)
    decreases |times|
  {
    if times != [] {
      var now := times[0];
      LevelTicks(c, k, e.at, now);
      AfterKeepsInv(c, k, e.at, now);
      LevelAfter(c, k, now);
      AfterKeepsInv(c, k, now, now);
      LazyIsEager(c, After(c, k, now), EagerAfter(c, e, now), times[1..]);
    }
  }

  lemma LevelAfter(c: Config, k: Key, now: int)
    requires Usable(c) && Inv(c, k, now)
    ensures var level := Level(c, k, now);
            Level(c, After(c, k, now), now) == if level < Window(c) then level else level - Window(c)
  {
    CapFits(c);
    LevelInRange(c, k, now);
  }

  /** From a key never used, the eager bucket starts full. */
  lemma FreshKeyIsFullBucket(c: Config, times: seq<int>, start: int)
    requires Usable(c) && Nondecreasing(times) && (times != [] ==> start <= times[0])
    ensures Replies(c, Absent, times) == EagerReplies(c, Eager(Cap(c), start), times)
  {
    LevelInRange(c, Absent, start);
    LazyIsEager(c, Absent, Eager(Cap(c), start), times);
  }

  // ---- Denied requests

  /** The times of the requests that were allowed. */
  function Kept(c: Config, k: Key, times: seq<int>): seq<int>
    requires Usable(c)
    decreases |times|
  {
    if times == [] then []
    else (if Level(c, k, times[0]) < Window(c) then [] else [times[0]])
         + Kept(c, After(c, k, times[0]), times[1..])
  }

  function OnlyAllowed(replies: seq<Reply>): seq<Reply> {
    if replies == [] then []
    else (if replies[0].allowed then [replies[0]] else []) + OnlyAllowed(replies[1..])
  }

  /** Striking the denied requests from a trace changes no other reply, nor the final key. */
  lemma {:induction false} DeniedLeaveNoTrace(c: Config, k: Key, times: seq<int>)
    requires Usable(c)
    ensures Replies(c, k, Kept(c, k, times)) == OnlyAllowed(Replies(c, k, times))
    ensures Final(c, k, Kept(c, k, times)) == Final(c, k, times)
    decreases |times|
  {
    if times != [] {
      var k', rest := After(c, k, times[0]), times[1..];
      DeniedLeaveNoTrace(c, k', rest);
      assert Replies(c, k, times)[1..] == Replies(c, k', rest);
      if Level(c, k, times[0]) < Window(c) {
        assert Kept(c, k, times) == Kept(c, k, rest);
      } else {
        assert Kept(c, k, times)[1..] == Kept(c, k', rest);
      }
    }
  }

  /** A denied request's wait is exactly the number of milliseconds it must hold back. */
  lemma WaitIsLeast(c: Config, k: Key, now: int, delay: nat)
    requires Usable(c) && Inv(c, k, now) && !Answer(c, Level(c, k, now)).allowed
    ensures After(c, k, now) == k
    ensures Answer(c, Level(c, k, now + delay)).allowed <==> delay >= Answer(c, Level(c, k, now)).wait
  {
    var level := Level(c, k, now);
    CapFits(c);
    LevelInRange(c, k, now);
    LevelTicks(c, k, now, now + delay);
    TickClosedForm(c, level, delay);
    CeilIsLeast(Window(c) - level, c.rate, delay);
  }

  // ---- How many are allowed

  function Allowed(replies: seq<Reply>): nat {
    if replies == [] then 0 else (if replies[0].allowed then 1 else 0) + Allowed(replies[1..])
  }

  /** The units that the allowed requests took. */
  function Spent(c: Config, replies: seq<Reply>): int {
    if replies == [] then 0 else (if replies[0].allowed then Window(c) else 0) + Spent(c, replies[1..])
  }

  /** The units that the time between the requests would add to a bucket without a cap. */
  function Refilled(c: Config, times: seq<int>): int
    decreases |times|
  {
    if |times| < 2 then 0 else (times[1] - times[0]) * c.rate + Refilled(c, times[1..])
  }

  lemma {:induction false} SpentIsProduct(c: Config, replies: seq<Reply>)
    ensures Spent(c, replies) == Allowed(replies) * Window(c)
  {
    if replies != [] {
      SpentIsProduct(c, replies[1..]);
      AddMultiple(1, Allowed(replies[1..]), Window(c));
    }
  }

  lemma {:induction false} RefilledIsProduct(c: Config, times: seq<int>)
    requires times != []
    ensures Refilled(c, times) == (times[|times| - 1] - times[0]) * c.rate
    decreases |times|
  {
    if |times| >= 2 {
      RefilledIsProduct(c, times[1..]);
      AddMultiple(times[1] - times[0], times[|times| - 1] - times[1], c.rate);
    }
  }

  lemma AddMultiple(a: int, b: int, m: int)
    ensures (a + b) * m == a * m + b * m
  {
  }

  /** No run spends more than it starts with and is given on the way. */
  lemma {:induction false} SpendsAtMost(c: Config, k: Key, times: seq<int>)
    requires Usable(c) && times != [] && Nondecreasing(times) && Inv(c, k, times[0])
    ensures Spent(c, Replies(c, k, times)) <= Level(c, k, times[0]) + Refilled(c, times)
    decreases |times|
  {
    var k', rest := After(c, k, times[0]), times[1..];
    assert Replies(c, k, times)[1..] == Replies(c, k', rest);
    LevelInRange(c, k, times[0]);
    if rest != [] {
      AfterKeepsInv(c, k, times[0], times[1]);
      SpendsAtMost(c, k', rest);
      LevelGrowth(c, k, times[0], times[1]);
    }
  }

  lemma Potential(c: Config, k: Key, times: seq<int>)
    requires Usable(c) && times != [] && Nondecreasing(times) && Inv(c, k, times[0])
    ensures Allowed(Replies(c, k, times)) * Window(c)
         <= Level(c, k, times[0]) + (times[|times| - 1] - times[0]) * c.rate
  {
    SpendsAtMost(c, k, times);
    SpentIsProduct(c, Replies(c, k, times));
    RefilledIsProduct(c, times);
  }

  /** Between two requests the level grows by no more than the time allows. */
  lemma LevelGrowth(c: Config, k: Key, now: int, next: int)
    requires Usable(c) && Inv(c, k, now) && now <= next
    ensures var level := Level(c, k, now);
            Level(c, After(c, k, now), next)
            <= (if level < Window(c) then level else level - Window(c)) + (next - now) * c.rate
  {
    var k' := After(c, k, now);
    LevelAfter(c, k, now);
    AfterKeepsInv(c, k, now, now);
    LevelTicks(c, k', now, next);
    LevelInRange(c, k', now);
    TickClosedForm(c, Level(c, k', now), next - now);
  }

  lemma QuotientBound(n: int, w: int, r: int, x: int)
    requires w > 0 && n * w <= r * w + x
    ensures n <= r + x / w
  {
    var q := r + x / w;
    assert x / w * w + x % w == x;
    assert (q + 1) * w == r * w + x / w * w + w;
    MulCancel(n, q + 1, w);
  }

  lemma {:induction false} RepliesAppend(c: Config, k: Key, first: seq<int>, second: seq<int>)
    requires Usable(c)
    ensures Replies(c, k, first + second) == Replies(c, k, first) + Replies(c, Final(c, k, first), second)
    ensures |Replies(c, k, first)| == |first|
    decreases |first|
  {
    if first == [] {
      assert first + second == second;
    } else {
      assert (first + second)[1..] == first[1..] + second;
      RepliesAppend(c, After(c, k, first[0]), first[1..], second);
    }
  }

  /**
   * In every run, the requests allowed between any two of them, T ms apart,
   * number at most rate + floor(T * rate / window).
   */
  lemma BurstBound(c: Config, before: seq<int>, times: seq<int>)
    requires Usable(c) && times != [] && Nondecreasing(before + times)
    ensures var span := times[|times| - 1] - times[0];
            Allowed(Replies(c, Absent, before + times)[|before|..]) <= c.rate + span * c.rate / Window(c)
  {
    var k := Final(c, Absent, before);
    TailIsRun(c, before, times);
    CapFits(c);
    LevelInRange(c, k, times[0]);
    Potential(c, k, times);
    QuotientBound(Allowed(Replies(c, k, times)), Window(c), c.rate, (times[|times| - 1] - times[0]) * c.rate);
  }

  /** The end of a run is itself a run, from a key in good order. */
  lemma TailIsRun(c: Config, before: seq<int>, times: seq<int>)
    requires Usable(c) && times != [] && Nondecreasing(before + times)
    ensures Nondecreasing(times) && Inv(c, Final(c, Absent, before), times[0])
    ensures Replies(c, Absent, before + times)[|before|..] == Replies(c, Final(c, Absent, before), times)
  {
    var all := before + times;
    assert forall i | 0 <= i < |before| :: all[i] == before[i];
    assert forall i | 0 <= i < |times| :: all[|before| + i] == times[i];
    RunKeepsInv(c, Absent, before, times[0]);
    RepliesAppend(c, Absent, before, times);
  }

  /** The bound is met: of n simultaneous requests as many pass as the bucket has whole tokens. */
  lemma {:induction false} BurstIsTight(c: Config, k: Key, times: seq<int>, now: int)
    requires Usable(c) && Inv(c, k, now) && forall i | 0 <= i < |times| :: times[i] == now
    ensures Allowed(Replies(c, k, times)) == Min(|times|, Level(c, k, now) / Window(c))
    decreases |times|
  {
    LevelInRange(c, k, now);
    WholeTokens(Level(c, k, now), Window(c));
    if times != [] {
      var k' := After(c, k, now);
      LevelAfter(c, k, now);
      AfterKeepsInv(c, k, now, now);
      BurstIsTight(c, k', times[1..], now);
      assert Replies(c, k, times)[1..] == Replies(c, k', times[1..]);
    }
  }

  lemma WholeTokens(level: int, window: int)
    requires window > 0 && level >= 0
    ensures level / window >= 0
    ensures level < window ==> level / window == 0
    ensures level >= window ==> (level - window) / window == level / window - 1
  {
    var q, r := level / window, level % window;
    assert level == q * window + r;
    if level < window {
      FractionIsZero(level, window);
    } else {
      assert (q - 1) * window == q * window - window;
      Bits.EuclidUnique(level - window, window, q - 1, r);
    }
  }

  lemma RemainingOf(c: Config, level: int, left: int)
    requires Usable(c) && left == if level < Window(c) then level else level - Window(c)
    ensures Answer(c, level).remaining == left / Window(c)
  {
  }

  /** `remaining` is how many more requests would pass at the same time. */
  lemma RemainingIsExact(c: Config, k: Key, now: int, times: seq<int>)
    requires Usable(c) && Inv(c, k, now) && forall i | 0 <= i < |times| :: times[i] == now
    ensures Allowed(Replies(c, After(c, k, now), times)) == Min(|times|, Answer(c, Level(c, k, now)).remaining)
  {
    LevelAfter(c, k, now);
    RemainingOf(c, Level(c, k, now), Level(c, After(c, k, now), now));
    AfterKeepsInv(c, k, now, now);
    BurstIsTight(c, After(c, k, now), times, now);
  }
}
