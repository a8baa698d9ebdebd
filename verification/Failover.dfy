/** probe/reporter/failover.go: the probe's pool of hubs, with cooldowns and a sticky current hub. */
module Failover {
  import opened Protocol
  import opened Ranking

  const COOLDOWN_MS := 30_000
  const MAX_CANDIDATES := 32

  /** `until` is the end of the cooldown; the zero time is none. */
  datatype Candidate = Candidate(url: string, until: Option<int>)

  datatype Outcome = Answered | Failed | NoHubs

  predicate Cooling(c: Candidate, now: int) {
    c.until.Some? && c.until.value > now
  }

  // ---- which hubs are known ----

  function Urls(c: seq<Candidate>): seq<string> {
    seq(|c|, i requires 0 <= i < |c| => c[i].url)
  }

  function AddOne(urls: seq<string>, url: string): seq<string> {
    if url == "" || url in urls || |urls| >= MAX_CANDIDATES then urls else urls + [url]
  }

  function AddAll(urls: seq<string>, more: seq<string>): seq<string> {
    if more == [] then urls else AddOne(AddAll(urls, more[..|more| - 1]), more[|more| - 1])
  }

  ghost predicate IsPool(urls: seq<string>) {
    Distinct(urls) && "" !in urls && |urls| <= 32
  }

  /** The pool only grows at its end, takes every hub it has room for, and no other. */
  lemma {:induction false} PoolGrows(urls: seq<string>, more: seq<string>)
    requires IsPool(urls)
    ensures var r := AddAll(urls, more);
      && IsPool(r)
      && urls <= r
      && (forall u :: u in r ==> u in urls || u in more)
      && (|r| < 32 ==> forall u :: u in more && u != "" ==> u in r)
  {
    if more != [] {
      PoolGrows(urls, more[..|more| - 1]);
      assert more == more[..|more| - 1] + [more[|more| - 1]];
    }
  }

  // ---- the order of one call's attempts ----

  /** The i-th index from start on, wrapping around. */
  function Rotated(start: nat, n: nat, i: nat): nat
    requires start < n && i < n
  {
    if start + i < n then start + i else start + i - n
  }

  lemma RotatedIsModulo(start: nat, n: nat, i: nat)
    requires start < n && i < n
    ensures Rotated(start, n, i) == (start + i) % n
  {
    if start + i < n {
      SmallModulo(start + i, n);
    } else {
      SmallModulo(start + i - n, n);
      assert (start + i - n + n) % n == (start + i - n) % n;
    }
  }

  lemma SmallModulo(x: nat, n: nat)
    requires x < n
    ensures x % n == x
    ensures (x + n) % n == x
  {
    assert (x + n) / n == 1;
  }

  function Healthy(c: seq<Candidate>, start: nat, now: int, m: nat): seq<nat>
    requires start < |c| && m <= |c|
  {
    if m == 0 then []
    else
      var idx := Rotated(start, |c|, m - 1);
      Healthy(c, start, now, m - 1) + if Cooling(c[idx], now) then [] else [idx]
  }

  function Cooled(c: seq<Candidate>, start: nat, now: int, m: nat): seq<nat>
    requires start < |c| && m <= |c|
  {
    if m == 0 then []
    else
      var idx := Rotated(start, |c|, m - 1);
      Cooled(c, start, now, m - 1) + if Cooling(c[idx], now) then [idx] else []
  }

  function Order(c: seq<Candidate>, start: nat, now: int): seq<nat>
    requires start < |c|
  {
    Healthy(c, start, now, |c|) + Cooled(c, start, now, |c|)
  }

  /** Steps from start to idx around the pool. */
  function Distance(start: nat, n: nat, idx: nat): nat
    requires start < n && idx < n
  {
    if idx >= start then idx - start else idx + n - start
  }

  lemma DistanceIs(start: nat, n: nat, idx: nat)
    requires start < n && idx < n
    ensures Distance(start, n, idx) < n && Rotated(start, n, Distance(start, n, idx)) == idx
  {
  }

  ghost predicate InRange(s: seq<nat>, n: nat) {
    forall p: nat :: p < |s| ==> s[p] < n
  }

  ghost predicate ByDistance(s: seq<nat>, start: nat, n: nat)
    requires start < n
  {
    && InRange(s, n)
    && (forall p: nat, q: nat :: p < q < |s| ==> Distance(start, n, s[p]) < Distance(start, n, s[q]))
  }

  lemma {:induction false} HealthyIs(c: seq<Candidate>, start: nat, now: int, m: nat)
    requires start < |c| && m <= |c|
    ensures IsPart(Healthy(c, start, now, m), c, start, now, m, false)
  {
    if m > 0 {
      HealthyIs(c, start, now, m - 1);
      PartStep(Healthy(c, start, now, m - 1), c, start, now, m, false);
    }
  }

  lemma {:induction false} CooledIs(c: seq<Candidate>, start: nat, now: int, m: nat)
    requires start < |c| && m <= |c|
    ensures IsPart(Cooled(c, start, now, m), c, start, now, m, true)
  {
    if m > 0 {
      CooledIs(c, start, now, m - 1);
      PartStep(Cooled(c, start, now, m - 1), c, start, now, m, true);
    }
  }

  lemma {:induction false} PartsLength(c: seq<Candidate>, start: nat, now: int, m: nat)
    requires start < |c| && m <= |c|
    ensures |Healthy(c, start, now, m)| + |Cooled(c, start, now, m)| == m
  {
    if m > 0 {
      PartsLength(c, start, now, m - 1);
    }
  }

  /** The hubs in cooldown, or those out of it, among the m nearest after start, nearest first. */
  ghost predicate IsPart(s: seq<nat>, c: seq<Candidate>, start: nat, now: int, m: nat, cooling: bool)
    requires start < |c|
  {
    && ByDistance(s, start, |c|)
    && forall x: nat :: x in s <==> x < |c| && Distance(start, |c|, x) < m && Cooling(c[x], now) == cooling
  }

  lemma PartStep(s: seq<nat>, c: seq<Candidate>, start: nat, now: int, m: nat, cooling: bool)
    requires start < |c| && 0 < m <= |c| && IsPart(s, c, start, now, m - 1, cooling)
    ensures var idx := Rotated(start, |c|, m - 1);
      IsPart(if Cooling(c[idx], now) == cooling then s + [idx] else s, c, start, now, m, cooling)
  {
    var idx := Rotated(start, |c|, m - 1);
    assert Distance(start, |c|, idx) == m - 1;
    forall x: nat | x < |c| && Distance(start, |c|, x) == m - 1
      ensures x == idx
    {
      DistanceIs(start, |c|, x);
    }
    if Cooling(c[idx], now) == cooling {
      AppendFarther(s, start, |c|, idx);
      assert forall x :: x in s + [idx] <==> x in s || x == idx;
    }
  }

  lemma AppendFarther(s: seq<nat>, start: nat, n: nat, idx: nat)
    requires start < n && idx < n && ByDistance(s, start, n)
    requires forall x: nat :: x in s ==> x < n && Distance(start, n, x) < Distance(start, n, idx)
    ensures ByDistance(s + [idx], start, n)
  {
    forall p: nat, q: nat | p < q < |s + [idx]|
      ensures Distance(start, n, (s + [idx])[p]) < Distance(start, n, (s + [idx])[q])
    {
      assert s[p] in s;
    }
  }

  /** No cooldown was set, or it has ended. */
  ghost predicate Recovered(c: Candidate, now: int) {
    c.until.None? || c.until.value <= now
  }

  /** x is tried before y: the recovered first, then nearest after start. */
  ghost predicate Sooner(c: seq<Candidate>, start: nat, now: int, x: nat, y: nat)
    requires start < |c| && x < |c| && y < |c|
  {
    if Recovered(c[x], now) != Recovered(c[y], now) then Recovered(c[x], now)
    else Distance(start, |c|, x) < Distance(start, |c|, y)
  }

  /** Every hub is in the order once, those out of cooldown first, each part in rotation from start. */
  lemma OrderIs(c: seq<Candidate>, start: nat, now: int)
    requires start < |c|
    ensures var order := Order(c, start, now);
      && |order| == |c|
      && InRange(order, |c|)
      && Distinct(order)
      && (forall x: nat :: x < |c| ==> x in order)
      && (forall p: nat, q: nat :: p < q < |order| ==> Sooner(c, start, now, order[p], order[q]))
  {
    var n := |c|;
    var h, k := Healthy(c, start, now, n), Cooled(c, start, now, n);
    HealthyIs(c, start, now, n);
    CooledIs(c, start, now, n);
    PartsLength(c, start, now, n);
    forall x: nat | x < n
      ensures x in h + k
    {
      DistanceIs(start, n, x);
      assert x in h || x in k;
    }
    forall p: nat, q: nat | p < q < |h + k|
      ensures (h + k)[p] < n && (h + k)[q] < n && Sooner(c, start, now, (h + k)[p], (h + k)[q])
    {
      assert (h + k)[p] in if p < |h| then h else k;
      assert (h + k)[q] in if q < |h| then h else k;
    }
  }

  // ---- one call ----

  /** After the failed attempts `tried`: each of them is in cooldown from its failure, the others are as before. */
  ghost predicate CooledDown(before: seq<Candidate>, after: seq<Candidate>, tried: seq<nat>, clock: nat -> int) {
    && |after| == |before|
    && InRange(tried, |before|)
    && (forall p: nat :: p < |tried| ==>
          after[tried[p]] == before[tried[p]].(until := Some(clock(p + 1) + 30_000)))
    && (forall x: nat :: x < |before| && x !in tried ==> after[x] == before[x])
  }

  lemma CooldownStep(before: seq<Candidate>, mid: seq<Candidate>, tried: seq<nat>, clock: nat -> int, idx: nat)
    requires CooledDown(before, mid, tried, clock) && idx < |before| && idx !in tried
    ensures CooledDown(before, mid[idx := mid[idx].(until := Some(clock(|tried| + 1) + COOLDOWN_MS))], tried + [idx], clock)
  {
    var after := mid[idx := mid[idx].(until := Some(clock(|tried| + 1) + COOLDOWN_MS))];
    forall p: nat | p < |tried + [idx]|
      ensures after[(tried + [idx])[p]] == before[(tried + [idx])[p]].(until := Some(clock(p + 1) + COOLDOWN_MS))
    {
      if p < |tried| {
        assert tried[p] in tried;
      }
    }
    forall x: nat | x < |before| && x !in tried + [idx]
      ensures after[x] == before[x]
    {
      assert x !in tried && x != idx;
    }
  }

  /** The first m attempts failed. */
  ghost predicate AllFailed(c: seq<Candidate>, tried: seq<nat>, m: nat, answers: string -> bool)
    requires InRange(tried, |c|) && m <= |tried|
  {
    forall p: nat :: p < m ==> !answers(c[tried[p]].url)
  }

  /** What a call does to the pool: the candidates and the current hub before and after it. */
  ghost predicate Called(
    before: seq<Candidate>, cur: nat, start: nat, answers: string -> bool, clock: nat -> int,
    after: seq<Candidate>, cur': nat, outcome: Outcome, tried: seq<nat>)
    requires start < |before|
  {
    var order := Order(before, start, clock(0));
    && tried <= order
    && InRange(tried, |before|)
    && match outcome
       case NoHubs => false
       case Failed =>
         && tried == order
         && AllFailed(before, tried, |tried|, answers)
         && CooledDown(before, after, tried, clock)
         && cur' == cur
       case Answered =>
         && tried != []
         && AllFailed(before, tried, |tried| - 1, answers)
         && var failed, x := tried[..|tried| - 1], tried[|tried| - 1];
         && answers(before[x].url)
         && |after| == |before|
         && after[x] == before[x].(until := None)
         && CooledDown(before, after[x := before[x]], failed, clock)
         && cur' == x
  }

  /** The first j hubs of the order were tried and all failed. */
  ghost predicate TriedInVain(
    before: seq<Candidate>, now: seq<Candidate>, order: seq<nat>, j: nat, answers: string -> bool, clock: nat -> int)
    requires j <= |order| && InRange(order, |before|)
  {
    AllFailed(before, order, j, answers) && CooledDown(before, now, order[..j], clock)
  }

  function Failing(c: seq<Candidate>, idx: nat, at: int): seq<Candidate>
    requires idx < |c|
  {
    c[idx := c[idx].(until := Some(at + COOLDOWN_MS))]
  }

  function Answering(c: seq<Candidate>, idx: nat): seq<Candidate>
    requires idx < |c|
  {
    c[idx := c[idx].(until := None)]
  }

  lemma OneMoreFailed(
    before: seq<Candidate>, mid: seq<Candidate>, order: seq<nat>, j: nat, answers: string -> bool, clock: nat -> int)
    requires j < |order| && InRange(order, |before|) && Distinct(order)
    requires TriedInVain(before, mid, order, j, answers, clock)
    requires !answers(before[order[j]].url)
    ensures TriedInVain(before, Failing(mid, order[j], clock(j + 1)), order, j + 1, answers, clock)
  {
    assert order[..j + 1] == order[..j] + [order[j]];
    CooldownStep(before, mid, order[..j], clock, order[j]);
  }

  lemma VainUrls(
    before: seq<Candidate>, mid: seq<Candidate>, order: seq<nat>, j: nat, answers: string -> bool, clock: nat -> int)
    requires j <= |order| && InRange(order, |before|)
    requires TriedInVain(before, mid, order, j, answers, clock)
    ensures Urls(mid) == Urls(before) && |mid| == |before|
    ensures forall i: nat :: i < |mid| ==> mid[i].url == before[i].url
  {
    SameUrlsCooled(before, mid, order[..j], clock);
    forall i: nat | i < |mid|
      ensures mid[i].url == before[i].url
    {
      assert Urls(mid)[i] == Urls(before)[i];
    }
  }

  lemma AnsweredIs(
    before: seq<Candidate>, mid: seq<Candidate>, cur: nat, start: nat, j: nat, answers: string -> bool, clock: nat -> int)
    requires start < |before| && j < |before|
    requires var order := Order(before, start, clock(0));
      && |order| == |before| && InRange(order, |before|)
      && Distinct(order)
      && TriedInVain(before, mid, order, j, answers, clock)
      && answers(before[order[j]].url)
    ensures var order := Order(before, start, clock(0));
      && Called(before, cur, start, answers, clock, Answering(mid, order[j]), order[j], Answered, order[..j + 1])
      && Urls(Answering(mid, order[j])) == Urls(before)
  {
    var order := Order(before, start, clock(0));
    var tried, idx := order[..j + 1], order[j];
    assert idx !in order[..j];
    assert Answering(mid, idx)[idx := before[idx]] == mid;
    assert tried[..j] == order[..j];
    VainUrls(before, mid, order, j, answers, clock);
    SameUrls(mid, Answering(mid, idx));
  }

  lemma FailedIs(
    before: seq<Candidate>, after: seq<Candidate>, cur: nat, start: nat, answers: string -> bool, clock: nat -> int)
    requires start < |before|
    requires var order := Order(before, start, clock(0));
      InRange(order, |before|) && TriedInVain(before, after, order, |order|, answers, clock)
    ensures Called(before, cur, start, answers, clock, after, cur, Failed, Order(before, start, clock(0)))
  {
    var order := Order(before, start, clock(0));
    assert order[..|order|] == order;
  }

  /** The pool after a discovery: the hubs the current hub names are appended, out of cooldown; the known ones are untouched. */
  ghost predicate Discovered(
    before: seq<Candidate>, cur: nat, enabled: bool, hubs: string -> Option<seq<string>>, after: seq<Candidate>)
    requires before != []
  {
    && cur < |before|
    && before <= after
    && (forall k :: |before| <= k < |after| ==> after[k].until == None)
    && var found := hubs(before[cur].url);
       Urls(after) == if enabled && found.Some? then AddAll(Urls(before), found.value) else Urls(before)
  }

  class FailoverClient {
    var candidates: seq<Candidate>
    var cur: nat
    var seen: set<string>
    const discoverEnabled: bool

    ghost predicate Valid()
      reads this
    {
      && IsPool(Urls(candidates))
      && (forall u :: u in seen <==> u in Urls(candidates))
      && (cur < |candidates| || (candidates == [] && cur == 0))
    }

    constructor (seedURLs: seq<string>, discover: bool)
      ensures Valid() && cur == 0 && discoverEnabled == discover
      ensures Urls(candidates) == AddAll([], seedURLs)
      ensures forall c :: c in candidates ==> c.until == None
    {
      candidates, cur, seen, discoverEnabled := [], 0, {}, discover;
      new;
      for i := 0 to |seedURLs|
        invariant Valid() && cur == 0 && discoverEnabled == discover
        invariant Urls(candidates) == AddAll([], seedURLs[..i])
        invariant forall c :: c in candidates ==> c.until == None
      {
        assert seedURLs[..i + 1][..i] == seedURLs[..i];
        AddLocked(seedURLs[i]);
      }
      assert seedURLs[..|seedURLs|] == seedURLs;
    }

    method AddLocked(url: string)
      requires Valid()
      modifies this
      ensures Valid() && cur == old(cur)
      ensures Urls(candidates) == AddOne(old(Urls(candidates)), url)
      ensures candidates == old(candidates) || candidates == old(candidates) + [Candidate(url, None)]
    {
      if url == "" || url in seen || |candidates| >= MAX_CANDIDATES {
        return;
      }
      seen := seen + {url};
      candidates := candidates + [Candidate(url, None)];
      assert Urls(candidates) == old(Urls(candidates)) + [url];
      DistinctConcat(old(Urls(candidates)), [url]);
    }

    /** Learns the hubs of the current hub's directory; `hubs` is its answer, none when it failed. */
    method Discover(hubs: string -> Option<seq<string>>)
      requires Valid()
      modifies this
      ensures Valid() && cur == old(cur)
      ensures old(candidates) == [] ==> candidates == []
      ensures old(candidates) != [] ==> Discovered(old(candidates), old(cur), discoverEnabled, hubs, candidates)
    {
      if !discoverEnabled {
        return;
      }
      if candidates == [] {
        return;
      }
      var found := hubs(candidates[cur].url);
      if found.None? {
        return;
      }
      for i := 0 to |found.value|
        invariant Valid() && cur == old(cur)
        invariant Urls(candidates) == AddAll(old(Urls(candidates)), found.value[..i])
        invariant old(candidates) <= candidates
        invariant forall k :: |old(candidates)| <= k < |candidates| ==> candidates[k].until == None
      {
        assert found.value[..i + 1][..i] == found.value[..i];
        AddLocked(found.value[i]);
      }
      assert found.value[..|found.value|] == found.value;
    }

    method AttemptOrder(start: nat, now: int) returns (order: seq<nat>)
      requires start < |candidates|
      ensures order == Order(candidates, start, now)
    {
      var n := |candidates|;
      var healthy: seq<nat>, cooled: seq<nat> := [], [];
      for i: nat := 0 to n
        invariant healthy == Healthy(candidates, start, now, i)
        invariant cooled == Cooled(candidates, start, now, i)
      {
        var idx := (start + i) % n;
        RotatedIsModulo(start, n, i);
        if candidates[idx].until.Some? && candidates[idx].until.value > now {
          cooled := cooled + [idx];
        } else {
          healthy := healthy + [idx];
        }
      }
      order := healthy + cooled;
    }

    /**
     Runs one call against the pool.  `answers` says which hubs would answer it; `clock` gives the
     first reading for the order and one more for each failure.
     */
    method Do(preferHome: bool, answers: string -> bool, clock: nat -> int) returns (outcome: Outcome, tried: seq<nat>)
      requires Valid()
      modifies this
      ensures Valid() && Urls(candidates) == old(Urls(candidates))
      ensures old(candidates) == [] ==> outcome == NoHubs && tried == [] && candidates == []
      ensures old(candidates) != [] ==>
        Called(old(candidates), old(cur), if preferHome then 0 else old(cur), answers, clock, candidates, cur, outcome, tried)
    {
      tried := [];
      if |candidates| == 0 {
        return NoHubs, tried;
      }
      var start := cur;
      if preferHome {
        start := 0;
      }
      var order := AttemptOrder(start, clock(0));
      outcome, tried := TryInOrder(start, order, answers, clock);
    }

    method TryInOrder(ghost start: nat, order: seq<nat>, answers: string -> bool, clock: nat -> int)
      returns (outcome: Outcome, tried: seq<nat>)
      requires start < |candidates| && order == Order(candidates, start, clock(0))
      modifies this`candidates, this`cur
      ensures Urls(candidates) == old(Urls(candidates)) && (cur < |candidates| || cur == old(cur))
      ensures Called(old(candidates), old(cur), start, answers, clock, candidates, cur, outcome, tried)
    {
      ghost var before := candidates;
      OrderIs(before, start, clock(0));
      for j := 0 to |order|
        invariant TriedInVain(before, candidates, order, j, answers, clock)
        invariant cur == old(cur)
      {
        var idx := order[j];
        VainUrls(before, candidates, order, j, answers, clock);
        if answers(candidates[idx].url) {
          AnsweredIs(before, candidates, cur, start, j, answers, clock);
          candidates := Answering(candidates, idx);
          cur := idx;
          return Answered, order[..j + 1];
        }
        OneMoreFailed(before, candidates, order, j, answers, clock);
        candidates := Failing(candidates, idx, clock(j + 1));
      }
      VainUrls(before, candidates, order, |order|, answers, clock);
      FailedIs(before, candidates, cur, start, answers, clock);
      return Failed, order;
    }

    /** The heartbeat: learns new hubs, then calls with the first configured hub preferred. */
    method Register(hubs: string -> Option<seq<string>>, answers: string -> bool, clock: nat -> int)
      returns (outcome: Outcome, tried: seq<nat>)
      requires Valid()
      modifies this
      ensures Valid()
      ensures old(candidates) == [] ==> outcome == NoHubs && candidates == []
      ensures old(Urls(candidates)) <= Urls(candidates)
      ensures old(candidates) != [] ==> exists known ::
        && known != [] && Urls(candidates) == Urls(known)
        && Discovered(old(candidates), old(cur), discoverEnabled, hubs, known)
        && Called(known, old(cur), 0, answers, clock, candidates, cur, outcome, tried)
      // a first hub whose cooldown has ended, if it ever had one, is current again if it answers
      ensures old(candidates) != [] && answers(old(candidates)[0].url) &&
              (old(candidates)[0].until.None? || old(candidates)[0].until.value <= clock(0)) ==>
        outcome == Answered && tried == [0] && cur == 0
    {
      ghost var before := candidates;
      Discover(hubs);
      ghost var known := candidates;
      assert before != [] ==> Urls(before) <= Urls(known);
      outcome, tried := Do(true, answers, clock);
      if before != [] && Recovered(before[0], clock(0)) && answers(before[0].url) {
        assert known[0] == before[0];
        FirstAnswers(known, old(cur), 0, answers, clock, candidates, cur, outcome, tried);
      }
    }
  }

  lemma SameUrls(a: seq<Candidate>, b: seq<Candidate>)
    requires |a| == |b| && forall i :: 0 <= i < |a| ==> a[i].url == b[i].url
    ensures Urls(a) == Urls(b)
  {
  }

  lemma SameUrlsCooled(before: seq<Candidate>, after: seq<Candidate>, tried: seq<nat>, clock: nat -> int)
    requires CooledDown(before, after, tried, clock)
    ensures Urls(before) == Urls(after)
  {
    forall i: nat | i < |before|
      ensures before[i].url == after[i].url
    {
      if i in tried {
        var p: nat :| p < |tried| && tried[p] == i;
      }
    }
    SameUrls(before, after);
  }

  // ---- what a call promises ----

  /** The start itself is tried first unless it is in cooldown, so a healthy current hub stays current. */
  lemma StartIsFirst(c: seq<Candidate>, start: nat, now: int)
    requires start < |c| && Recovered(c[start], now)
    ensures Order(c, start, now)[0] == start
  {
    OrderIs(c, start, now);
    var order := Order(c, start, now);
    assert start in order;
    var p: nat :| p < |order| && order[p] == start;
    assert forall q: nat :: 0 < q < |order| ==> Sooner(c, start, now, order[0], order[q]);
  }

  /** If the start is out of cooldown and would answer, it is the only hub tried. */
  lemma FirstAnswers(
    before: seq<Candidate>, cur: nat, start: nat, answers: string -> bool, clock: nat -> int,
    after: seq<Candidate>, cur': nat, outcome: Outcome, tried: seq<nat>)
    requires start < |before| && Recovered(before[start], clock(0)) && answers(before[start].url)
    requires Called(before, cur, start, answers, clock, after, cur', outcome, tried)
    ensures outcome == Answered && tried == [start] && cur' == start
  {
    StartIsFirst(before, start, clock(0));
    OrderIs(before, start, clock(0));
    assert |tried| > 0 ==> tried[0] == start;
  }

  /** A call tries no hub twice, and fails only after every known hub failed and went into cooldown. */
  lemma FailsOnlyAfterAll(
    before: seq<Candidate>, cur: nat, start: nat, answers: string -> bool, clock: nat -> int,
    after: seq<Candidate>, cur': nat, outcome: Outcome, tried: seq<nat>)
    requires start < |before|
    requires Called(before, cur, start, answers, clock, after, cur', outcome, tried)
    ensures Distinct(tried)
    ensures outcome == Failed <==> forall x: nat :: x < |before| ==> !answers(before[x].url)
    ensures outcome == Failed ==> |tried| == |before|
    ensures outcome == Failed ==> forall x: nat :: x < |before| ==> InCooldownOf(before, after, tried, clock, x)
  {
    OrderIs(before, start, clock(0));
    if outcome == Failed {
      forall x: nat | x < |before|
        ensures InCooldownOf(before, after, tried, clock, x) && !answers(before[x].url)
      {
        assert x in tried;
        var p: nat :| p < |tried| && tried[p] == x;
        assert FailedAt(before, after, tried, clock, x, p);
      }
    } else {
      assert answers(before[tried[|tried| - 1]].url);
    }
  }

  ghost predicate FailedAt(before: seq<Candidate>, after: seq<Candidate>, tried: seq<nat>, clock: nat -> int, x: nat, p: nat) {
    && x < |before| == |after|
    && p < |tried|
    && tried[p] == x
    && after[x] == Candidate(before[x].url, Some(clock(p + 1) + 30_000))
  }

  /** x was tried, and its cooldown runs from that attempt. */
  ghost predicate InCooldownOf(before: seq<Candidate>, after: seq<Candidate>, tried: seq<nat>, clock: nat -> int, x: nat) {
    exists p: nat :: FailedAt(before, after, tried, clock, x, p)
  }

  /** The hub that answers is the first, in the order of preference, of those that would. */
  lemma BestAnswers(
    before: seq<Candidate>, cur: nat, start: nat, answers: string -> bool, clock: nat -> int,
    after: seq<Candidate>, cur': nat, tried: seq<nat>)
    requires start < |before|
    requires Called(before, cur, start, answers, clock, after, cur', Answered, tried)
    ensures cur' < |before| == |after| && answers(before[cur'].url) && after[cur'].until == None
    ensures forall x: nat :: x < |before| && answers(before[x].url) && x != cur' ==> Sooner(before, start, clock(0), cur', x)
  {
    var order := Order(before, start, clock(0));
    OrderIs(before, start, clock(0));
    var k := |tried| - 1;
    assert order[k] == cur';
    assert forall q: nat :: q < k ==> tried[q] == order[q];
    forall x: nat | x < |before| && answers(before[x].url) && x != cur'
      ensures Sooner(before, start, clock(0), cur', x)
    {
      assert x in order;
      var p: nat :| p < |order| && order[p] == x;
    }
  }

  /**
   A cooldown ends: a hub that failed at time t and is past t + 30_000 in a later call, on a pool that may
   have grown since, is in its order ahead of every hub whose cooldown has not ended; so if it answers, none of
   those is tried.
   */
  lemma RecoversAfterCooldown(
    before: seq<Candidate>, cur: nat, start: nat, answers: string -> bool, clock: nat -> int,
    after: seq<Candidate>, cur': nat, outcome: Outcome, tried: seq<nat>, p: nat,
    pool: seq<Candidate>, curL: nat, startL: nat, answersL: string -> bool, clockL: nat -> int,
    afterL: seq<Candidate>, curL': nat, outcomeL: Outcome, triedL: seq<nat>)
    requires start < |before| && startL < |pool|
    requires Called(before, cur, start, answers, clock, after, cur', outcome, tried)
    requires p < |tried| && tried[p] < |before| && !answers(before[tried[p]].url)
    requires after <= pool && clockL(0) >= clock(p + 1) + 30_000
    requires Called(pool, curL, startL, answersL, clockL, afterL, curL', outcomeL, triedL)
    ensures tried[p] < |pool|
    ensures forall y: nat :: y < |pool| && pool[y].until.Some? && pool[y].until.value > clockL(0) ==>
      Sooner(pool, startL, clockL(0), tried[p], y)
    ensures answersL(pool[tried[p]].url) ==>
      forall q: nat :: q < |triedL| ==> pool[triedL[q]].until.None? || pool[triedL[q]].until.value <= clockL(0)
  {
    var x, now := tried[p], clockL(0);
    FailureSets(before, cur, start, answers, clock, after, cur', outcome, tried, p);
    assert pool[x] == after[x] && Recovered(pool[x], now);
    if answersL(pool[x].url) {
      AnsweredBefore(pool, curL, startL, answersL, clockL, afterL, curL', outcomeL, triedL, x);
      forall q: nat | q < |triedL|
        ensures Recovered(pool[triedL[q]], now)
      {
      }
    }
  }

  /** What a failed attempt leaves: a cooldown from its own time. */
  lemma FailureSets(
    before: seq<Candidate>, cur: nat, start: nat, answers: string -> bool, clock: nat -> int,
    after: seq<Candidate>, cur': nat, outcome: Outcome, tried: seq<nat>, p: nat)
    requires start < |before| && p < |tried|
    requires Called(before, cur, start, answers, clock, after, cur', outcome, tried)
    requires tried[p] < |before| && !answers(before[tried[p]].url)
    ensures |after| == |before| && after[tried[p]] == Candidate(before[tried[p]].url, Some(clock(p + 1) + 30_000))
  {
    OrderIs(before, start, clock(0));
    if outcome == Answered {
      var k := |tried| - 1;
      assert p < k;
      assert tried[..k][p] == tried[p] != tried[k];
    }
  }

  /** A hub that would answer is the last one tried at the latest. */
  lemma AnsweredBefore(
    before: seq<Candidate>, cur: nat, start: nat, answers: string -> bool, clock: nat -> int,
    after: seq<Candidate>, cur': nat, outcome: Outcome, tried: seq<nat>, x: nat)
    requires start < |before| && x < |before| && answers(before[x].url)
    requires Called(before, cur, start, answers, clock, after, cur', outcome, tried)
    ensures InRange(tried, |before|)
    ensures forall q: nat :: q < |tried| ==> tried[q] == x || Sooner(before, start, clock(0), tried[q], x)
  {
    var order := Order(before, start, clock(0));
    OrderIs(before, start, clock(0));
    assert x in order;
    var i: nat :| i < |order| && order[i] == x;
    assert forall q: nat :: q < |tried| ==> tried[q] == order[q];
    assert |tried| <= i + 1;
  }

  /** A hub that failed in the call is in cooldown when it ends, one that answered is not. */
  lemma FailuresCool(
    before: seq<Candidate>, cur: nat, start: nat, answers: string -> bool, clock: nat -> int,
    after: seq<Candidate>, cur': nat, outcome: Outcome, tried: seq<nat>, end: int, p: nat)
    requires start < |before|
    requires Called(before, cur, start, answers, clock, after, cur', outcome, tried)
    requires forall i: nat :: 1 <= i <= |before| ==> end < clock(i) + 30_000
    requires p < |tried|
    ensures |after| == |before| && tried[p] < |before|
    ensures (after[tried[p]].until.Some? && after[tried[p]].until.value > end) <==> !answers(before[tried[p]].url)
  {
    OrderIs(before, start, clock(0));
    if outcome == Answered && p < |tried| - 1 {
      var k := |tried| - 1;
      assert tried[..k][p] == tried[p] != tried[k];
    }
  }
}
