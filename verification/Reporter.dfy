/** probe/reporter/reporter.go: the probe's scheduler, which runs due checks under the bucket. */
module Reporter {
  import opened Protocol
  import opened RateLimit

  /** A check and when it is next due, in seconds. */
  datatype Scheduled = Scheduled(spec: CheckSpec, due: real)

  function Interval(s: CheckSpec): int {
    if s.IntervalSeconds <= 0 then 60 else s.IntervalSeconds
  }

  // ---- when checks were started ----

  /** The times of the calls that were granted. */
  function GrantTimes(ts: seq<real>, ds: seq<bool>): seq<real>
    requires |ts| == |ds|
  {
    if ts == [] then []
    else
      var n := |ts| - 1;
      GrantTimes(ts[..n], ds[..n]) + if ds[n] then [ts[n]] else []
  }

  /** How many of the times lie between a and b. */
  function Within(ts: seq<real>, a: real, b: real): nat {
    if ts == [] then 0
    else
      var n := |ts| - 1;
      Within(ts[..n], a, b) + if a <= ts[n] <= b then 1 else 0
  }

  lemma WithinAppend(ts: seq<real>, t: real, a: real, b: real)
    ensures Within(ts + [t], a, b) == Within(ts, a, b) + if a <= t <= b then 1 else 0
  {
    assert (ts + [t])[..|ts|] == ts;
  }

  lemma GrantTimesAppend(ts: seq<real>, ds: seq<bool>, t: real, ok: bool)
    requires |ts| == |ds|
    ensures GrantTimes(ts + [t], ds + [ok]) == GrantTimes(ts, ds) + if ok then [t] else []
  {
    assert (ts + [t])[..|ts|] == ts && (ds + [ok])[..|ds|] == ds;
  }

  function Clamp(n: nat, lo: nat, hi: nat): nat {
    if n < lo then lo else if n > hi then hi else n
  }

  /** The calls between a and b are calls lo to hi - 1. */
  ghost predicate Between(ts: seq<real>, a: real, b: real, lo: nat, hi: nat) {
    && lo <= hi <= |ts|
    && (forall k :: 0 <= k < lo ==> ts[k] < a)
    && (forall k :: lo <= k < hi ==> a <= ts[k] <= b)
    && (forall k :: hi <= k < |ts| ==> ts[k] > b)
  }

  lemma BetweenExists(ts: seq<real>, a: real, b: real) returns (lo: nat, hi: nat)
    requires Nondecreasing(ts) && a <= b
    ensures Between(ts, a, b, lo, hi)
  {
    lo := 0;
    while lo < |ts| && ts[lo] < a
      invariant lo <= |ts|
      invariant forall k :: 0 <= k < lo ==> ts[k] < a
    {
      lo := lo + 1;
    }
    hi := lo;
    while hi < |ts| && ts[hi] <= b
      invariant lo <= hi <= |ts|
      invariant forall k :: lo <= k < hi ==> a <= ts[k] <= b
    {
      assert ts[lo] <= ts[hi];
      hi := hi + 1;
    }
  }

  lemma WithinStep(ts: seq<real>, ds: seq<bool>, a: real, b: real, n: nat)
    requires n < |ts| == |ds|
    ensures Within(GrantTimes(ts[..n + 1], ds[..n + 1]), a, b) ==
      Within(GrantTimes(ts[..n], ds[..n]), a, b) + if ds[n] && a <= ts[n] <= b then 1 else 0
  {
    var before := GrantTimes(ts[..n], ds[..n]);
    assert ts[..n + 1] == ts[..n] + [ts[n]] && ds[..n + 1] == ds[..n] + [ds[n]];
    GrantTimesAppend(ts[..n], ds[..n], ts[n], ds[n]);
    WithinAppend(before, ts[n], a, b);
    assert before + [] == before;
  }

  lemma GrantsStep(ds: seq<bool>, lo: nat, hi: nat, n: nat)
    requires lo <= hi <= |ds| && n < |ds|
    ensures Grants(ds, lo, Clamp(n + 1, lo, hi)) ==
      Grants(ds, lo, Clamp(n, lo, hi)) + if ds[n] && lo <= n < hi then 1 else 0
  {
  }

  lemma {:induction false} WithinIsGrants(ts: seq<real>, ds: seq<bool>, a: real, b: real, lo: nat, hi: nat, n: nat)
    requires |ts| == |ds| && Between(ts, a, b, lo, hi) && n <= |ts|
    ensures Within(GrantTimes(ts[..n], ds[..n]), a, b) == Grants(ds, lo, Clamp(n, lo, hi))
  {
    if n > 0 {
      WithinIsGrants(ts, ds, a, b, lo, hi, n - 1);
      WithinStep(ts, ds, a, b, n - 1);
      GrantsStep(ds, lo, hi, n - 1);
      assert a <= ts[n - 1] <= b <==> lo <= n - 1 < hi;
    }
  }

  lemma BetweenBound(max: real, rate: real, ts: seq<real>, ds: seq<bool>, a: real, b: real, lo: nat, hi: nat)
    requires rate >= 0.0 && max >= 0.0 && Nondecreasing(ts) && a <= b
    requires IsRun(max, Supply(rate, ts), ds) && Between(ts, a, b, lo, hi)
    ensures Grants(ds, lo, hi) as real <= Allowance(max, rate, b - a)
  {
    if lo < hi {
      WindowWithin(max, rate, b - a, ts, ds, lo, hi - 1);
    } else {
      EmptyWindow(max, rate, b - a);
    }
  }

  /** What a bucket granted between any two times is within its window bound. */
  lemma GrantTimesBound(max: real, rate: real, ts: seq<real>, ds: seq<bool>, a: real, b: real)
    requires rate >= 0.0 && max >= 0.0 && Nondecreasing(ts) && a <= b
    requires IsRun(max, Supply(rate, ts), ds)
    ensures |ts| == |ds| && Within(GrantTimes(ts, ds), a, b) as real <= Allowance(max, rate, b - a)
  {
    var lo, hi := BetweenExists(ts, a, b);
    WithinIsGrants(ts, ds, a, b, lo, hi, |ts|);
    assert ts[..|ts|] == ts && ds[..|ds|] == ds;
    BetweenBound(max, rate, ts, ds, a, b, lo, hi);
  }

  lemma SupplyOrder(rate: real, ts: seq<real>)
    requires rate > 0.0 && Nondecreasing(Supply(rate, ts))
    ensures Nondecreasing(ts)
  {
    forall i, j | 0 <= i <= j < |ts|
      ensures ts[i] <= ts[j]
    {
      var cs := Supply(rate, ts);
      assert cs[i] <= cs[j];
      assert rate * (ts[j] - ts[i]) >= 0.0;
    }
  }

  // ---- the scheduler ----

  function Next(sc: Scheduled, now: real): Scheduled {
    sc.(due := now + Interval(sc.spec) as real)
  }

  ghost predicate StartedOnce(schedule: map<string, Scheduled>, toRun: seq<string>, now: real) {
    && (forall i, j :: 0 <= i < j < |toRun| ==> toRun[i] != toRun[j])
    && (forall id :: id in toRun ==> id in schedule && schedule[id].due <= now)
  }

  /** What was started is due again after its interval, or a minute where none is set. */
  ghost function Rescheduled(schedule: map<string, Scheduled>, toRun: seq<string>, now: real): map<string, Scheduled> {
    map id | id in schedule ::
      var s := schedule[id].spec;
      if id in toRun then Scheduled(s, now + (if s.IntervalSeconds > 0 then s.IntervalSeconds else 60) as real)
      else schedule[id]
  }

  lemma StartOne(schedule: map<string, Scheduled>, toRun: seq<string>, id: string, now: real)
    requires StartedOnce(schedule, toRun, now) && id in schedule && id !in toRun && schedule[id].due <= now
    ensures StartedOnce(schedule, toRun + [id], now)
    ensures Rescheduled(schedule, toRun + [id], now) ==
      Rescheduled(schedule, toRun, now)[id := Next(schedule[id], now)]
  {
  }

  ghost function DueIn(schedule: map<string, Scheduled>, now: real): set<string> {
    set id | id in schedule && schedule[id].due <= now
  }

  ghost predicate AllStarted(due: set<string>, toRun: seq<string>) {
    forall id :: id in due ==> id in toRun
  }

  ghost predicate AllGrantedSince(granted: seq<bool>, from: nat) {
    forall k :: from <= k < |granted| ==> granted[k]
  }

  ghost predicate CallsSince(before: seq<bool>, after: seq<bool>, asked: int, started: nat) {
    && |after| == |before| + asked
    && before <= after
    && Grants(after, |before|, |after|) == started
  }

  lemma CallsAppend(before: seq<bool>, after: seq<bool>, asked: nat, started: nat, ok: bool)
    requires CallsSince(before, after, asked, started)
    ensures CallsSince(before, after + [ok], asked + 1, if ok then started + 1 else started)
  {
    GrantsOfPrefix(after, ok, |before|, |after|);
  }

  lemma {:induction false} GrantsOfPrefix(ds: seq<bool>, ok: bool, i: nat, j: nat)
    requires i <= j <= |ds|
    ensures Grants(ds + [ok], i, j) == Grants(ds, i, j)
  {
    if i < j {
      GrantsOfPrefix(ds, ok, i, j - 1);
    }
  }

  lemma TakeOut(due: set<string>, todo: set<string>, id: string)
    requires id in todo
    ensures |due * (todo - {id})| == |due * todo| - if id in due then 1 else 0
    ensures id in due ==> |due * todo| >= 1
  {
    if id in due {
      assert due * todo == due * (todo - {id}) + {id};
    } else {
      assert due * todo == due * (todo - {id});
    }
  }

  /** The readings of a monotonic clock from `from` to `to`. */
  ghost predicate Readings(clock: nat -> real, from: real, to: real) {
    && (forall i: nat :: from <= clock(i) <= to)
    && (forall i: nat, j: nat :: i <= j ==> clock(i) <= clock(j))
  }

  /** n more starts than before, all between from and to. */
  ghost predicate MoreStarts(before: seq<real>, after: seq<real>, n: nat, from: real, to: real) {
    && |after| == |before| + n
    && before <= after
    && forall i :: |before| <= i < |after| ==> from <= after[i] <= to
  }

  lemma MoreStartsAppend(before: seq<real>, mid: seq<real>, n: nat, from: real, to: real, at: real)
    requires MoreStarts(before, mid, n, from, to) && from <= at <= to
    ensures MoreStarts(before, mid + [at], n + 1, from, to)
  {
  }

  lemma AllStartedStep(due: set<string>, todo: set<string>, id: string, toRun: seq<string>)
    requires id in todo
    ensures AllStarted(due - todo, toRun) ==> AllStarted(due - (todo - {id}), toRun + [id])
    ensures AllStarted(due - todo, toRun) && id !in due ==> AllStarted(due - (todo - {id}), toRun)
  {
  }

  /** The checks outside todo have been looked at, and those in toRun started. */
  ghost predicate Underway(first: map<string, Scheduled>, schedule: map<string, Scheduled>, todo: set<string>,
                           toRun: seq<string>, now: real) {
    && todo <= first.Keys
    && schedule == Rescheduled(first, toRun, now)
    && StartedOnce(first, toRun, now)
    && forall id :: id in toRun ==> id !in todo
  }

  lemma AllToDo(schedule: map<string, Scheduled>, now: real)
    ensures Underway(schedule, schedule, schedule.Keys, [], now)
    ensures DueIn(schedule, now) * schedule.Keys == DueIn(schedule, now)
  {
  }

  lemma UnderwayStep(first: map<string, Scheduled>, schedule: map<string, Scheduled>, todo: set<string>,
                     toRun: seq<string>, now: real, id: string)
    requires Underway(first, schedule, todo, toRun, now) && id in todo
    ensures id in schedule && schedule[id] == first[id]
    ensures Underway(first, schedule, todo - {id}, toRun, now)
    ensures first[id].due <= now ==>
      Underway(first, schedule[id := Next(schedule[id], now)], todo - {id}, toRun + [id], now)
  {
    if first[id].due <= now {
      StartOne(first, toRun, id, now);
    }
  }

  class Reporter {
    var schedule: map<string, Scheduled>
    const limiter: TokenBucket?
    /** When the bucket let each check start, or when it was looked at if there is no bucket. */
    ghost var starts: seq<real>

    ghost predicate Valid()
      reads this, limiter
    {
      limiter != null ==>
        && limiter.Valid()
        && |limiter.times| == |limiter.granted|
        && starts == GrantTimes(limiter.times, limiter.granted)
    }

    /** The bucket was last asked by `time`. */
    ghost predicate IdleSince(time: real)
      reads this, limiter
    {
      limiter != null ==> limiter.last <= time
    }

    constructor (perMinute: int, now: real)
      ensures Valid() && IdleSince(now) && schedule == map[] && starts == []
      ensures limiter == null <==> perMinute <= 0
      ensures limiter != null ==>
        fresh(limiter) && limiter.max == perMinute as real && limiter.refillPerSec == perMinute as real / 60.0
    {
      schedule, starts := map[], [];
      if perMinute <= 0 {
        limiter := null;
      } else {
        var bucket := new TokenBucket(perMinute, now);
        limiter := bucket;
      }
    }

    /**
     A new assignment: known checks keep their due time, new ones are due at once, others are
     dropped.  Without an answer the old one stays.
     */
    method Refresh(fetched: Option<seq<CheckSpec>>, now: real)
      modifies this`schedule
      ensures fetched.None? ==> schedule == old(schedule)
      ensures fetched.Some? ==> forall id :: id in schedule <==> exists s :: s in fetched.value && s.ID == id
      ensures fetched.Some? ==> forall id :: id in schedule ==>
        && schedule[id].spec in fetched.value && schedule[id].spec.ID == id
        && schedule[id].due == if id in old(schedule) then old(schedule)[id].due else now
    {
      if fetched.None? {
        return;
      }
      var specs := fetched.value;
      var next: map<string, Scheduled> := map[];
      for i := 0 to |specs|
        invariant forall id :: id in next <==> exists s :: s in specs[..i] && s.ID == id
        invariant forall id :: id in next ==> next[id].spec in specs[..i] && next[id].spec.ID == id
        invariant forall id :: id in next ==> next[id].due == if id in schedule then schedule[id].due else now
      {
        assert specs[..i + 1] == specs[..i] + [specs[i]];
        var s := specs[i];
        if s.ID in schedule {
          next := next[s.ID := Scheduled(s, schedule[s.ID].due)];
        } else {
          next := next[s.ID := Scheduled(s, now)];
        }
      }
      assert specs[..|specs|] == specs;
      schedule := next;
    }

    /** Look at one check at time `at`; a bucket that is nil permits everything. */
    method Consider(id: string, now: real, at: real) returns (started: bool)
      requires Valid() && IdleSince(at) && id in schedule
      modifies this, limiter
      ensures Valid() && IdleSince(at)
      ensures starts == if started then old(starts) + [at] else old(starts)
      ensures started ==> old(schedule)[id].due <= now
      ensures limiter == null && old(schedule)[id].due <= now ==> started
      // a due check is one call of the bucket, and starts if that is granted; any other is no call
      ensures limiter != null && old(schedule)[id].due <= now ==>
        && limiter.times == old(limiter.times) + [at]
        && limiter.granted == old(limiter.granted) + [started]
        && limiter.last == at
        && limiter.tokens == Filled(limiter.max, limiter.refillPerSec, old(limiter.tokens), old(limiter.last), at) - Spent(started)
        && (started <==> Filled(limiter.max, limiter.refillPerSec, old(limiter.tokens), old(limiter.last), at) >= 1.0)
      ensures limiter != null && old(schedule)[id].due > now ==>
        && limiter.times == old(limiter.times) && limiter.granted == old(limiter.granted)
        && limiter.last == old(limiter.last) && limiter.tokens == old(limiter.tokens)
      ensures schedule == if started then old(schedule)[id := Next(old(schedule)[id], now)] else old(schedule)
    {
      var sc := schedule[id];
      if sc.due > now {
        return false;
      }
      if limiter != null {
        var ok := limiter.Allow(at);
        GrantTimesAppend(old(limiter.times), old(limiter.granted), at, ok);
        if !ok {
          return false;
        }
      }
      schedule := schedule[id := Next(sc, now)];
      starts := starts + [at];
      return true;
    }

    /** There is no bucket, or it has refused no call since `before`. */
    ghost predicate NoneRefused(before: seq<bool>)
      reads this, limiter
    {
      limiter != null ==> AllGrantedSince(limiter.granted, |before|)
    }

    /** Room in the bucket at `time` for n more calls. */
    ghost predicate HasTokens(n: nat, time: real)
      reads this, limiter
    {
      limiter != null ==>
        limiter.last <= time && Filled(limiter.max, limiter.refillPerSec, limiter.tokens, limiter.last, time) >= n as real
    }

    /** Since `before` the bucket has been asked `asked` times, and has granted `started` of them. */
    ghost predicate Called(before: seq<bool>, asked: int, started: nat)
      reads this, limiter
    {
      limiter != null ==> CallsSince(before, limiter.granted, asked, started)
    }

    /** One more check, looked at under the bucket with n due checks to come. */
    method ConsiderNext(id: string, now: real, at: real, ghost before: seq<bool>, ghost asked: nat, ghost count: nat,
                        ghost n: nat, ghost later: real)
      returns (started: bool)
      requires Valid() && IdleSince(at) && id in schedule && at <= later
      requires Called(before, asked, count)
      requires schedule[id].due <= now ==> n >= 1
      modifies this, limiter
      ensures Valid() && IdleSince(at)
      ensures starts == if started then old(starts) + [at] else old(starts)
      ensures schedule == if started then old(schedule)[id := Next(old(schedule)[id], now)] else old(schedule)
      ensures started ==> old(schedule)[id].due <= now
      ensures old(schedule)[id].due <= now ==>
        && Called(before, asked + 1, if started then count + 1 else count)
        && (NoneRefused(before) ==> started)
        && (old(HasTokens(n, at)) ==> started && HasTokens(n - 1, later))
      ensures old(schedule)[id].due > now ==> Called(before, asked, count) && (old(HasTokens(n, at)) ==> HasTokens(n, later))
      ensures NoneRefused(before) ==> old(NoneRefused(before))
    {
      started := Consider(id, now, at);
      if limiter != null {
        if old(schedule[id]).due <= now {
          CallsAppend(before, old(limiter.granted), asked, count, started);
          if old(HasTokens(n, at)) {
            LeftOver(limiter.max, limiter.refillPerSec,
                     Filled(limiter.max, limiter.refillPerSec, old(limiter.tokens), old(limiter.last), at), at, later);
          }
        } else {
          FillsUp(limiter.max, limiter.refillPerSec, limiter.tokens, limiter.last, at, later);
        }
      }
    }

    /** Start every due check the bucket lets through; the others stay due.  `clock` is what the bucket reads. */
    method RunDue(now: real, clock: nat -> real, ghost end: real) returns (toRun: seq<string>)
      requires Valid() && IdleSince(now) && Readings(clock, now, end)
      modifies this, limiter
      ensures Valid() && IdleSince(end)
      // what is started was due, is started once, and is next due one interval from now
      ensures StartedOnce(old(schedule), toRun, now)
      ensures schedule == Rescheduled(old(schedule), toRun, now)
      // each start is a grant of the bucket during this pass
      ensures MoreStarts(old(starts), starts, |toRun|, now, end)
      // without a bucket everything due is started
      ensures limiter == null ==> AllStarted(DueIn(old(schedule), now), toRun)
      // with one, each due check is one call, each start one grant, and a check is missing only if a call was refused
      ensures limiter != null ==> CallsSince(old(limiter.granted), limiter.granted, |DueIn(old(schedule), now)|, |toRun|)
      ensures limiter != null && AllGrantedSince(limiter.granted, |old(limiter.granted)|) ==>
        AllStarted(DueIn(old(schedule), now), toRun)
      // so with a token for each of them every due check is started
      ensures old(HasTokens(|DueIn(schedule, now)|, now)) ==> AllStarted(DueIn(old(schedule), now), toRun)
    {
      toRun := [];
      var todo := schedule.Keys;
      var n: nat := 0;
      ghost var due, before := DueIn(schedule, now), if limiter == null then [] else limiter.granted;
      ghost var plenty := HasTokens(|due|, now);
      ghost var left := |due|;
      AllToDo(schedule, now);
      if limiter != null {
        FillsUp(limiter.max, limiter.refillPerSec, limiter.tokens, limiter.last, now, clock(0));
      }
      while todo != {}
        invariant Underway(old(schedule), schedule, todo, toRun, now) && left == |due * todo| <= |due|
        invariant Valid() && IdleSince(clock(n))
        invariant MoreStarts(old(starts), starts, |toRun|, now, end)
        invariant Called(before, |due| - left, |toRun|)
        invariant plenty ==> HasTokens(left, clock(n))
        invariant NoneRefused(before) || plenty ==> AllStarted(due - todo, toRun)
      {
        var id :| id in todo;
        TakeOut(due, todo, id);
        UnderwayStep(old(schedule), schedule, todo, toRun, now, id);
        AllStartedStep(due, todo, id, toRun);
        MoreStartsAppend(old(starts), starts, |toRun|, now, end, clock(n));
        todo := todo - {id};
        var started := ConsiderNext(id, now, clock(n), before, |due| - left, |toRun|, left, clock(n + 1));
        left := if id in due then left - 1 else left;
        n := n + 1;
        if started {
          toRun := toRun + [id];
        }
      }
    }

    /** Between any two times at most max + rate * elapsed checks were started, however many passes that took. */
    ghost predicate KeepsRate()
      reads this, limiter
    {
      limiter != null ==>
        forall a, b :: a <= b ==>
          Within(starts, a, b) as real <= Allowance(limiter.max, limiter.refillPerSec, b - a)
    }

    lemma ValidKeepsRate()
      requires Valid()
      ensures KeepsRate()
    {
      if limiter != null {
        forall a, b | a <= b
          ensures Within(starts, a, b) as real <= Allowance(limiter.max, limiter.refillPerSec, b - a)
        {
          BucketBound(limiter.max, limiter.refillPerSec, limiter.times, limiter.granted, limiter.tokens, limiter.last, a, b);
        }
      }
    }

    /** The main loop: a first refresh, then polls and scheduler ticks as they come. */
    method Run(first: Option<seq<CheckSpec>>, start: real, ticks: seq<Tick>)
      requires Valid() && IdleSince(start) && InOrder(start, ticks)
      modifies this, limiter
      ensures Valid() && KeepsRate()
    {
      Refresh(first, start);
      ghost var time := start;
      for i := 0 to |ticks|
        invariant Valid() && IdleSince(time) && InOrder(time, ticks[i..])
      {
        match ticks[i]
        case Poll(fetched, now) =>
          Refresh(fetched, now);
          time := now;
        case Due(now, clock, end) =>
          var _ := RunDue(now, clock, end);
          time := end;
      }
      ValidKeepsRate();
    }
  }

  /** A poll, with the hub's answer if there was one; or a scheduler tick, with the clock readings of its pass. */
  datatype Tick = Poll(fetched: Option<seq<CheckSpec>>, now: real) | Due(now: real, clock: nat -> real, end: real)

  /** Each tick starts after the one before it has ended. */
  ghost predicate InOrder(start: real, ticks: seq<Tick>)
    decreases ticks
  {
    ticks == [] ||
    match ticks[0]
    case Poll(_, now) => start <= now && InOrder(now, ticks[1..])
    case Due(now, clock, end) => start <= now && Readings(clock, now, end) && InOrder(end, ticks[1..])
  }

  lemma BucketBound(max: real, rate: real, ts: seq<real>, ds: seq<bool>, tokens: real, last: real, a: real, b: real)
    requires rate > 0.0 && max >= 0.0 && a <= b && |ts| == |ds|
    requires if ts == [] then ds == [] else After(max, rate, ts, ds, tokens, last)
    ensures Within(GrantTimes(ts, ds), a, b) as real <= Allowance(max, rate, b - a)
  {
    if ts == [] {
      EmptyWindow(max, rate, b - a);
    } else {
      SupplyOrder(rate, ts);
      GrantTimesBound(max, rate, ts, ds, a, b);
    }
  }
}
