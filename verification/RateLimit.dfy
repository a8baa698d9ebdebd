/**
 The token buckets of the probe (probe/reporter/ratelimit.go) and of the hub's write
 endpoints (hub/api/ratelimit.go), over real-valued tokens and seconds.
 */
module RateLimit {

  // ---- call histories: the times of the calls and which were granted ----

  /** Grants among calls i, ..., j-1. */
  function Grants(ds: seq<bool>, i: nat, j: nat): (n: nat)
    requires i <= j <= |ds|
    ensures n <= j - i
  {
    if i == j then 0 else Grants(ds, i, j - 1) + if ds[j - 1] then 1 else 0
  }

  ghost predicate Nondecreasing(ts: seq<real>) {
    forall i, j :: 0 <= i <= j < |ts| ==> ts[i] <= ts[j]
  }

  /** Call times on the bucket's own scale: what the refill has supplied by then. */
  function Supply(rate: real, ts: seq<real>): seq<real> {
    seq(|ts|, i requires 0 <= i < |ts| => rate * ts[i])
  }

  lemma SupplyIsRateTimesElapsed(rate: real, ts: seq<real>)
    requires rate >= 0.0 && Nondecreasing(ts)
    ensures Nondecreasing(Supply(rate, ts))
    ensures forall i, j :: 0 <= i < |ts| && 0 <= j < |ts| ==>
      Supply(rate, ts)[j] - Supply(rate, ts)[i] == rate * (ts[j] - ts[i])
  {
    forall i, j | 0 <= i <= j < |ts|
      ensures rate * ts[i] <= rate * ts[j]
    {
      assert rate * (ts[j] - ts[i]) >= 0.0;
    }
  }

  /** The window from call j to call n has room for x more grants. */
  ghost predicate WithinWindow(max: real, cs: seq<real>, ds: seq<bool>, j: nat, n: nat, x: real)
    requires j <= n < |cs| && n <= |ds|
  {
    Grants(ds, j, n) as real + x <= max + (cs[n] - cs[j])
  }

  /** Granting call n keeps every window that ends with it within max + rate * elapsed. */
  ghost predicate Room(max: real, cs: seq<real>, ds: seq<bool>, n: nat)
    requires n < |cs| && n <= |ds|
  {
    forall j :: 0 <= j <= n ==> WithinWindow(max, cs, ds, j, n, 1.0)
  }

  function Lesser(a: real, b: real): real {
    if a <= b then a else b
  }

  function Spent(granted: bool): real {
    if granted then 1.0 else 0.0
  }

  /** Tokens in the bucket when call n has refilled it, if earlier calls were decided by ds. */
  function Level(max: real, cs: seq<real>, ds: seq<bool>, n: nat): real
    requires n < |cs| && n <= |ds|
  {
    if n == 0 then max
    else Lesser(max, Level(max, cs, ds, n - 1) - Spent(ds[n - 1]) + (cs[n] - cs[n - 1]))
  }

  /** The bucket level is the tightest window bound; so it permits a call exactly when there is room. */
  lemma {:induction false} LevelIsTightestWindow(max: real, cs: seq<real>, ds: seq<bool>, n: nat, x: real)
    requires n < |cs| && n <= |ds|
    ensures Level(max, cs, ds, n) >= x <==> forall j :: 0 <= j <= n ==> WithinWindow(max, cs, ds, j, n, x)
  {
    if n == 0 {
      assert Level(max, cs, ds, n) >= x <==> WithinWindow(max, cs, ds, 0, 0, x);
    } else {
      var m := n - 1;
      var y := x + Spent(ds[m]) - (cs[n] - cs[m]);
      LevelIsTightestWindow(max, cs, ds, m, y);
      forall j | 0 <= j <= m
        ensures WithinWindow(max, cs, ds, j, n, x) <==> WithinWindow(max, cs, ds, j, m, y)
      {
      }
      assert WithinWindow(max, cs, ds, n, n, x) <==> x <= max;
      assert Level(max, cs, ds, n) >= x <==> x <= max && Level(max, cs, ds, m) >= y;
    }
  }

  ghost predicate DecidedByLevel(max: real, cs: seq<real>, ds: seq<bool>, n: nat)
    requires n < |cs| && n < |ds|
  {
    ds[n] <==> Level(max, cs, ds, n) >= 1.0
  }

  /** The decisions of a bucket that starts full. */
  ghost predicate IsRun(max: real, cs: seq<real>, ds: seq<bool>) {
    && |ds| == |cs| && Nondecreasing(cs)
    && forall n: nat :: n < |ds| ==> DecidedByLevel(max, cs, ds, n)
  }

  /** A call is granted if, and only if, no window ending with it would exceed its bound. */
  lemma GrantedExactlyWithRoom(max: real, cs: seq<real>, ds: seq<bool>, n: nat)
    requires IsRun(max, cs, ds) && n < |ds|
    ensures ds[n] <==> Room(max, cs, ds, n)
  {
    assert DecidedByLevel(max, cs, ds, n);
    LevelIsTightestWindow(max, cs, ds, n, 1.0);
  }

  ghost predicate GrantedWithRoom(max: real, cs: seq<real>, es: seq<bool>, n: nat)
    requires n < |cs| && n < |es|
  {
    es[n] ==> Room(max, cs, es, n)
  }

  /** Any limiter that respects every window. */
  ghost predicate Respects(max: real, cs: seq<real>, es: seq<bool>) {
    |es| == |cs| && forall n: nat :: n < |es| ==> GrantedWithRoom(max, cs, es, n)
  }

  lemma BucketRespects(max: real, cs: seq<real>, ds: seq<bool>)
    requires IsRun(max, cs, ds)
    ensures Respects(max, cs, ds)
  {
    forall n: nat | n < |ds|
      ensures GrantedWithRoom(max, cs, ds, n)
    {
      GrantedExactlyWithRoom(max, cs, ds, n);
    }
  }

  /** Between any two calls at most max + rate * elapsed calls are granted. */
  lemma WindowBound(max: real, rate: real, ts: seq<real>, ds: seq<bool>, i: nat, j: nat)
    requires rate >= 0.0 && max >= 0.0 && Nondecreasing(ts)
    requires IsRun(max, Supply(rate, ts), ds) && i <= j < |ds|
    ensures Grants(ds, i, j + 1) as real <= max + rate * (ts[j] - ts[i])
  {
    SupplyIsRateTimesElapsed(rate, ts);
    BucketRespects(max, Supply(rate, ts), ds);
    WindowBoundInTokens(max, Supply(rate, ts), ds, i, j);
  }

  lemma {:induction false} WindowBoundInTokens(max: real, cs: seq<real>, ds: seq<bool>, i: nat, j: nat)
    requires Respects(max, cs, ds) && Nondecreasing(cs) && max >= 0.0 && i <= j < |ds|
    ensures Grants(ds, i, j + 1) as real <= max + (cs[j] - cs[i])
  {
    if ds[j] {
      assert GrantedWithRoom(max, cs, ds, j);
      assert WithinWindow(max, cs, ds, i, j, 1.0);
    } else if i == j {
      assert Grants(ds, i, i) == 0;
    } else {
      WindowBoundInTokens(max, cs, ds, i, j - 1);
      assert cs[j - 1] <= cs[j];
    }
  }

  // ---- how tight the bound is ----

  /** Calls i to j of a run of the bucket, at most T apart. */
  ghost predicate IsWindow(max: real, rate: real, T: real, ts: seq<real>, ds: seq<bool>, i: nat, j: nat) {
    && Nondecreasing(ts) && IsRun(max, Supply(rate, ts), ds)
    && i <= j < |ds| && ts[j] - ts[i] <= T
  }

  /** Some run grants n calls or more in a window of length T. */
  ghost predicate CanGrant(max: real, rate: real, T: real, n: nat) {
    exists ts: seq<real>, ds: seq<bool>, i: nat, j: nat ::
      IsWindow(max, rate, T, ts, ds, i, j) && Grants(ds, i, j + 1) >= n
  }

  /** m calls at once, and then one whenever a token has come in. */
  function Burst(m: nat, rate: real, n: nat): seq<real>
    requires rate > 0.0
  {
    seq(n, i requires 0 <= i < n => if i < m then 0.0 else (i - m + 1) as real / rate)
  }

  lemma BurstSupply(m: nat, rate: real, n: nat)
    requires rate > 0.0
    ensures Nondecreasing(Burst(m, rate, n))
    ensures forall i :: 0 <= i < n ==> Supply(rate, Burst(m, rate, n))[i] == if i < m then 0.0 else (i - m + 1) as real
  {
    forall i | 0 <= i < n
      ensures Supply(rate, Burst(m, rate, n))[i] == if i < m then 0.0 else (i - m + 1) as real
    {
      if i >= m {
        assert rate * ((i - m + 1) as real / rate) == (i - m + 1) as real;
      }
    }
    forall i, j | 0 <= i <= j < n
      ensures Burst(m, rate, n)[i] <= Burst(m, rate, n)[j]
    {
      if i >= m {
        QuotientOrder((i - m + 1) as real, (j - m + 1) as real, rate);
      } else if j >= m {
        QuotientOrder(0.0, (j - m + 1) as real, rate);
      }
    }
  }

  lemma QuotientOrder(x: real, y: real, rate: real)
    requires x <= y && rate > 0.0
    ensures x / rate <= y / rate
  {
  }

  lemma {:induction false} BurstLevel(m: nat, cs: seq<real>, ds: seq<bool>, k: nat)
    requires m > 0 && k < |cs| == |ds| && forall i :: 0 <= i < |ds| ==> ds[i]
    requires forall i :: 0 <= i < |cs| ==> cs[i] == if i < m then 0.0 else (i - m + 1) as real
    ensures Level(m as real, cs, ds, k) == if k < m then (m - k) as real else 1.0
  {
    if k > 0 {
      BurstLevel(m, cs, ds, k - 1);
    }
  }

  lemma {:induction false} AllGranted(ds: seq<bool>, j: nat)
    requires j <= |ds| && forall i :: 0 <= i < j ==> ds[i]
    ensures Grants(ds, 0, j) == j
  {
    if j > 0 {
      AllGranted(ds, j - 1);
    }
  }

  /** Every call of a burst is granted. */
  lemma BurstIsGranted(m: nat, rate: real, n: nat) returns (ds: seq<bool>)
    requires m > 0 && rate > 0.0
    ensures IsRun(m as real, Supply(rate, Burst(m, rate, n)), ds) && Grants(ds, 0, n) == n
  {
    ds := seq(n, i => true);
    var max, cs := m as real, Supply(rate, Burst(m, rate, n));
    BurstSupply(m, rate, n);
    SupplyIsRateTimesElapsed(rate, Burst(m, rate, n));
    forall k: nat | k < |ds|
      ensures DecidedByLevel(max, cs, ds, k)
    {
      BurstLevel(m, cs, ds, k);
    }
    AllGranted(ds, n);
  }

  /** What a window may hold: the full bucket, and what comes in meanwhile. */
  function Allowance(max: real, rate: real, elapsed: real): real {
    max + rate * elapsed
  }

  lemma WindowWithin(max: real, rate: real, T: real, ts: seq<real>, ds: seq<bool>, i: nat, j: nat)
    requires max >= 0.0 && rate >= 0.0 && IsWindow(max, rate, T, ts, ds, i, j)
    ensures Grants(ds, i, j + 1) as real <= Allowance(max, rate, T)
  {
    WindowBound(max, rate, ts, ds, i, j);
    LongerWindow(Grants(ds, i, j + 1) as real, max, rate, ts[j] - ts[i], T);
  }

  lemma BurstSpan(m: nat, rate: real, T: real, k: nat)
    requires rate > 0.0 && T >= 0.0 && 0 < k && (k == 1 || k as real <= m as real + rate * T) && m > 0
    ensures Burst(m, rate, k)[k - 1] - Burst(m, rate, k)[0] <= T
  {
    if k > m {
      QuotientOrder((k - m) as real, rate * T, rate);
      assert rate * T / rate == T;
    }
  }

  /** n calls can be granted within T exactly if n is at most m + rate * T: no bound on windows is better. */
  lemma WindowBoundExactly(m: nat, rate: real, T: real, n: nat)
    requires m > 0 && rate > 0.0 && T >= 0.0
    ensures CanGrant(m as real, rate, T, n) <==> n as real <= m as real + rate * T
  {
    var max := m as real;
    if CanGrant(max, rate, T, n) {
      var ts: seq<real>, ds: seq<bool>, i: nat, j: nat :|
        IsWindow(max, rate, T, ts, ds, i, j) && Grants(ds, i, j + 1) >= n;
      WindowWithin(max, rate, T, ts, ds, i, j);
    }
    if n as real <= max + rate * T {
      var k := if n == 0 then 1 else n;
      var ts := Burst(m, rate, k);
      var ds := BurstIsGranted(m, rate, k);
      BurstSupply(m, rate, k);
      BurstSpan(m, rate, T, k);
      assert IsWindow(max, rate, T, ts, ds, 0, k - 1);
    }
  }

  /** A bound for a window is a bound for any longer one. */
  lemma LongerWindow(g: real, max: real, rate: real, x: real, y: real)
    requires rate >= 0.0 && x <= y && g <= max + rate * x
    ensures g <= max + rate * y
  {
    assert rate * (y - x) >= 0.0;
  }

  lemma EmptyWindow(max: real, rate: real, T: real)
    requires max >= 0.0 && rate >= 0.0 && T >= 0.0
    ensures 0.0 <= Allowance(max, rate, T)
  {
  }

  /** No window of length T, in any run, has more than n grants. */
  ghost predicate GrantsAtMost(max: real, rate: real, T: real, n: nat) {
    forall ts: seq<real>, ds: seq<bool>, i: nat, j: nat ::
      IsWindow(max, rate, T, ts, ds, i, j) ==> Grants(ds, i, j + 1) <= n
  }

  lemma AtMostOrMore(max: real, rate: real, T: real, n: nat)
    ensures GrantsAtMost(max, rate, T, n) <==> !CanGrant(max, rate, T, n + 1)
  {
  }

  /** A bucket of m holds every window of length T to m grants exactly while less than one token comes in within T. */
  lemma CapHoldsExactly(m: nat, rate: real, T: real)
    requires m > 0 && rate > 0.0 && T >= 0.0
    ensures GrantsAtMost(m as real, rate, T, m) <==> rate * T < 1.0
  {
    var n := m + 1;
    assert n as real == m as real + 1.0;
    WindowBoundExactly(m, rate, T, n);
    AtMostOrMore(m as real, rate, T, m);
  }

  /** So the cap is not a ceiling on every minute: up to 2m calls, and no more, can be granted within one. */
  lemma MinuteCanDoubleTheCap(m: nat, n: nat)
    requires m > 0
    ensures CanGrant(m as real, m as real / 60.0, 60.0, n) <==> n <= 2 * m
  {
    WindowBoundExactly(m, m as real / 60.0, 60.0, n);
    assert m as real / 60.0 * 60.0 == m as real;
  }

  /** No limiter that respects every window has granted more calls at any point. */
  lemma {:induction false} MostPermissive(max: real, cs: seq<real>, ds: seq<bool>, es: seq<bool>, n: nat)
    requires IsRun(max, cs, ds) && Respects(max, cs, es) && n <= |cs|
    ensures Grants(es, 0, n) <= Grants(ds, 0, n)
    ensures n < |cs| ==>
      Level(max, cs, es, n) + Grants(es, 0, n) as real <= Level(max, cs, ds, n) + Grants(ds, 0, n) as real
  {
    if n > 0 {
      MostPermissive(max, cs, ds, es, n - 1);
      assert DecidedByLevel(max, cs, ds, n - 1);
      if es[n - 1] {
        assert GrantedWithRoom(max, cs, es, n - 1);
        LevelIsTightestWindow(max, cs, es, n - 1, 1.0);
      }
      OneStepAhead(max, Level(max, cs, ds, n - 1), Level(max, cs, es, n - 1),
                   Grants(ds, 0, n - 1), Grants(es, 0, n - 1), ds[n - 1], es[n - 1],
                   if n < |cs| then cs[n] - cs[n - 1] else 0.0);
    }
  }

  /** The bucket grants when it can; so it stays ahead, and holding back never pays later. */
  lemma OneStepAhead(max: real, ld: real, le: real, gd: nat, ge: nat, d: bool, e: bool, gain: real)
    requires ge <= gd && le + ge as real <= ld + gd as real
    requires d <==> ld >= 1.0
    requires e ==> le >= 1.0
    ensures var gd', ge' := gd + (if d then 1 else 0), ge + (if e then 1 else 0);
      && ge' <= gd'
      && Lesser(max, le - Spent(e) + gain) + ge' as real <= Lesser(max, ld - Spent(d) + gain) + gd' as real
  {
    assert e && !d ==> ge < gd;
  }

  /** The bucket after its calls so far: one more call appends this decision. */
  ghost predicate After(max: real, rate: real, ts: seq<real>, ds: seq<bool>, tokens: real, last: real) {
    && ts != [] && IsRun(max, Supply(rate, ts), ds)
    && last == ts[|ts| - 1]
    && tokens == Level(max, Supply(rate, ts), ds, |ts| - 1) - Spent(ds[|ts| - 1])
  }

  /** The refill of a call at `now`: what the elapsed time earned, capped. */
  function Filled(max: real, rate: real, tokens: real, last: real, now: real): real {
    var elapsed := now - last;
    Lesser(max, tokens + elapsed * rate)
  }

  /** Tokens are not lost by waiting. */
  lemma FillsUp(max: real, rate: real, tokens: real, last: real, now: real, later: real)
    requires rate >= 0.0 && last <= now <= later
    ensures Filled(max, rate, tokens, last, now) <= Filled(max, rate, tokens, last, later)
  {
    var d := later - now;
    assert d * rate >= 0.0;
    assert (later - last) * rate == (now - last) * rate + d * rate;
  }

  /** What a call leaves is there for the next one. */
  lemma LeftOver(max: real, rate: real, filled: real, now: real, later: real)
    requires rate >= 0.0 && now <= later && 1.0 <= filled <= max
    ensures Filled(max, rate, filled - 1.0, now, later) >= filled - 1.0
  {
    assert (later - now) * rate >= 0.0;
  }

  /** One call of a bucket, from the state its history determines. */
  lemma OneMoreCall(max: real, rate: real, ts: seq<real>, ds: seq<bool>, tokens: real, last: real, now: real)
    requires rate >= 0.0
    requires if ts == [] then ds == [] && tokens == max else After(max, rate, ts, ds, tokens, last) && now >= last
    requires ts == [] ==> now >= last
    ensures var filled := Filled(max, rate, tokens, last, now);
      var ok := filled >= 1.0;
      && After(max, rate, ts + [now], ds + [ok], filled - Spent(ok), now)
      && (ok <==> Room(max, Supply(rate, ts + [now]), ds + [ok], |ts|))
  {
    var ok := Filled(max, rate, tokens, last, now) >= 1.0;
    var cs, us, es := Supply(rate, ts), Supply(rate, ts + [now]), ds + [ok];
    assert rate * (now - last) >= 0.0 && rate * (now - last) == rate * now - rate * last;
    SupplyAppend(rate, ts, now);
    OneMoreDecision(max, cs, ds, tokens, rate * last, rate * now, ok);
  }

  lemma SupplyAppend(rate: real, ts: seq<real>, now: real)
    ensures Supply(rate, ts + [now]) == Supply(rate, ts) + [rate * now]
  {
    var a, b := Supply(rate, ts + [now]), Supply(rate, ts) + [rate * now];
    assert |a| == |b|;
    forall i | 0 <= i < |a|
      ensures a[i] == b[i]
    {
      assert (ts + [now])[i] == if i < |ts| then ts[i] else now;
    }
  }

  lemma OneMoreDecision(max: real, cs: seq<real>, ds: seq<bool>, tokens: real, c: real, c': real, ok: bool)
    requires c <= c'
    requires if cs == [] then ds == [] && tokens == max
             else IsRun(max, cs, ds) && c == cs[|cs| - 1] && tokens == Level(max, cs, ds, |cs| - 1) - Spent(ds[|cs| - 1])
    requires ok <==> Lesser(max, tokens + (c' - c)) >= 1.0
    ensures IsRun(max, cs + [c'], ds + [ok])
    ensures Level(max, cs + [c'], ds + [ok], |cs|) == Lesser(max, tokens + (c' - c))
    ensures ok <==> Room(max, cs + [c'], ds + [ok], |cs|)
  {
    var n := |cs|;
    var us, es := cs + [c'], ds + [ok];
    LevelOfPrefix(max, cs, ds, us, es);
    forall i: nat | i < |es|
      ensures DecidedByLevel(max, us, es, i)
    {
      if i < n {
        assert DecidedByLevel(max, cs, ds, i);
      }
    }
    assert n > 0 ==> forall i :: 0 <= i < n ==> cs[i] <= cs[n - 1];
    GrantedExactlyWithRoom(max, us, es, n);
  }

  /** A longer history does not change earlier levels. */
  lemma LevelOfPrefix(max: real, cs: seq<real>, ds: seq<bool>, us: seq<real>, es: seq<bool>)
    requires |cs| == |ds| && |us| == |es| == |cs| + 1 && cs == us[..|cs|] && ds == es[..|cs|]
    ensures forall n: nat :: n < |cs| ==> Level(max, cs, ds, n) == Level(max, us, es, n)
  {
    forall n: nat | n < |cs|
      ensures Level(max, cs, ds, n) == Level(max, us, es, n)
    {
      LevelOfPrefixAt(max, cs, ds, us, es, n);
    }
  }

  lemma {:induction false} LevelOfPrefixAt(max: real, cs: seq<real>, ds: seq<bool>, us: seq<real>, es: seq<bool>, n: nat)
    requires |cs| == |ds| && |us| == |es| == |cs| + 1 && cs == us[..|cs|] && ds == es[..|cs|] && n < |cs|
    ensures Level(max, cs, ds, n) == Level(max, us, es, n)
  {
    assert forall i :: 0 <= i < |cs| ==> cs[i] == us[i] && ds[i] == es[i];
    if n > 0 {
      LevelOfPrefixAt(max, cs, ds, us, es, n - 1);
    }
  }

  // ---- the probe's bucket ----

  class TokenBucket {
    var tokens: real
    const max: real
    const refillPerSec: real
    var last: real
    /** The calls so far and their outcomes. */
    ghost var times: seq<real>
    ghost var granted: seq<bool>

    ghost predicate Valid()
      reads this
    {
      && refillPerSec > 0.0 && max > 0.0
      && if times == [] then granted == [] && tokens == max
         else After(max, refillPerSec, times, granted, tokens, last)
    }

    constructor (perMinute: int, now: real)
      requires perMinute > 0
      ensures Valid() && times == [] && last == now
      ensures max == perMinute as real && refillPerSec == perMinute as real / 60.0
    {
      tokens := perMinute as real;
      max := perMinute as real;
      refillPerSec := perMinute as real / 60.0;
      last := now;
      times, granted := [], [];
    }

    /** `now` comes from a monotonic clock. */
    method Allow(now: real) returns (ok: bool)
      requires Valid() && now >= last
      modifies this
      ensures Valid() && last == now
      ensures times == old(times) + [now] && granted == old(granted) + [ok]
      ensures ok <==> Room(max, Supply(refillPerSec, times), granted, |old(times)|)
      ensures tokens == Filled(max, refillPerSec, old(tokens), old(last), now) - Spent(ok)
      ensures ok <==> Filled(max, refillPerSec, old(tokens), old(last), now) >= 1.0
    {
      OneMoreCall(max, refillPerSec, times, granted, tokens, last, now);
      tokens := Filled(max, refillPerSec, tokens, last, now);
      last := now;
      if tokens >= 1.0 {
        tokens := tokens - 1.0;
        ok := true;
      } else {
        ok := false;
      }
      times := times + [now];
      granted := granted + [ok];
    }
  }

  // ---- one bucket per client address ----

  datatype IpBucket = IpBucket(tokens: real, last: real)

  /** An address's own calls and their outcomes. */
  datatype History = History(times: seq<real>, granted: seq<bool>)

  function HistoryOf(h: map<string, History>, ip: string): History {
    if ip in h then h[ip] else History([], [])
  }

  ghost predicate Tracks(max: real, rate: real, ts: seq<real>, ds: seq<bool>, b: IpBucket) {
    After(max, rate, ts, ds, b.tokens, b.last)
  }

  /** One call from an address: the state of its bucket, new or not, and the decision. */
  lemma AddressCalls(max: real, rate: real, ts: seq<real>, ds: seq<bool>, b: IpBucket, now: real)
    requires rate >= 0.0 && now >= b.last
    requires if ts == [] then ds == [] && b.tokens == max else Tracks(max, rate, ts, ds, b)
    ensures var filled := Filled(max, rate, b.tokens, b.last, now);
      var ok := filled >= 1.0;
      && Tracks(max, rate, ts + [now], ds + [ok], IpBucket(if ok then filled - 1.0 else filled, now))
      && (ok <==> Room(max, Supply(rate, ts + [now]), ds + [ok], |ts|))
  {
    OneMoreCall(max, rate, ts, ds, b.tokens, b.last, now);
  }

  class IpRateLimiter {
    var buckets: map<string, IpBucket>
    const max: real
    const refillPerSec: real
    ghost var history: map<string, History>

    ghost predicate Valid()
      reads this
    {
      && refillPerSec >= 0.0
      && buckets.Keys == history.Keys
      && forall ip :: ip in buckets ==>
           Tracks(max, refillPerSec, history[ip].times, history[ip].granted, buckets[ip])
    }

    constructor (perMinute: int, burst: int)
      requires perMinute > 0
      ensures Valid() && history == map[]
      ensures max == (if burst < 1 then 1 else burst) as real && refillPerSec == perMinute as real / 60.0
    {
      buckets, history := map[], map[];
      max := (if burst < 1 then 1 else burst) as real;
      refillPerSec := perMinute as real / 60.0;
    }

    /** The decision for an address is that of a full bucket of its own, fed only its own calls. */
    method Allow(ip: string, now: real) returns (ok: bool)
      requires Valid() && (ip in buckets ==> now >= buckets[ip].last)
      modifies this
      ensures Valid()
      ensures history == old(history)[ip :=
        History(HistoryOf(old(history), ip).times + [now], HistoryOf(old(history), ip).granted + [ok])]
      ensures ok <==> Room(max, Supply(refillPerSec, history[ip].times), history[ip].granted, |HistoryOf(old(history), ip).times|)
    {
      ghost var h := HistoryOf(history, ip);
      var b := if ip in buckets then buckets[ip] else IpBucket(max, now);
      AddressCalls(max, refillPerSec, h.times, h.granted, b, now);
      var tokens := Filled(max, refillPerSec, b.tokens, b.last, now);
      ok := tokens >= 1.0;
      buckets := buckets[ip := IpBucket(if ok then tokens - 1.0 else tokens, now)];
      history := history[ip := History(h.times + [now], h.granted + [ok])];
    }
  }
}
