/** hub/alert/alert.go: from results to a corroborated status, and from a status to a notification. */
module AlertEngine {
  import opened Ids
  import opened Protocol
  import opened Ranking
  import opened Responsibility
  import opened AlertStore

  // ---- latest result per probe ----

  type Latest = map<Id, ResultContent>

  predicate Of(c: ResultContent, check: string, probe: Id) {
    c.CheckID == check && c.ProbeID == probe
  }

  /** Result i is the newest of its probe for the check; among equal stamps, the one seen first. */
  ghost predicate LatestAt(results: seq<ResultContent>, check: string, probe: Id, i: nat) {
    && i < |results| && Of(results[i], check, probe)
    && forall j :: 0 <= j < |results| && Of(results[j], check, probe) ==>
         results[j].TimestampMS <= results[i].TimestampMS && (j < i ==> results[j].TimestampMS < results[i].TimestampMS)
  }

  ghost predicate IsLatest(results: seq<ResultContent>, check: string, probe: Id, c: ResultContent) {
    exists i: nat :: LatestAt(results, check, probe, i) && results[i] == c
  }

  ghost predicate IsReduction(results: seq<ResultContent>, out: map<string, Latest>) {
    && (forall check, probe :: check in out && probe in out[check] ==> IsLatest(results, check, probe, out[check][probe]))
    && (forall c :: c in results ==> c.CheckID in out && c.ProbeID in out[c.CheckID])
  }

  method LatestPerProbeByCheck(results: seq<ResultContent>) returns (out: map<string, Latest>)
    ensures IsReduction(results, out)
  {
    out := map[];
    for i := 0 to |results|
      invariant IsReduction(results[..i], out)
    {
      var c := results[i];
      var m := if c.CheckID in out then out[c.CheckID] else map[];
      var prev := out;
      if c.ProbeID !in m || c.TimestampMS > m[c.ProbeID].TimestampMS {
        m := m[c.ProbeID := c];
      }
      out := out[c.CheckID := m];
      ReduceOne(results, i, prev, out);
    }
    assert results[..|results|] == results;
  }

  /** A result that is not of the probe, or not newer, leaves its latest alone. */
  lemma StaysLatest(results: seq<ResultContent>, n: nat, check: string, probe: Id, c: ResultContent)
    requires n < |results| && IsLatest(results[..n], check, probe, c)
    requires Of(results[n], check, probe) ==> results[n].TimestampMS <= c.TimestampMS
    ensures IsLatest(results[..n + 1], check, probe, c)
  {
    var i: nat :| LatestAt(results[..n], check, probe, i) && results[..n][i] == c;
    assert results[..n + 1] == results[..n] + [results[n]];
    assert LatestAt(results[..n + 1], check, probe, i);
  }

  /** A newer result, or a first one, becomes the latest. */
  lemma BecomesLatest(results: seq<ResultContent>, n: nat, check: string, probe: Id)
    requires n < |results| && Of(results[n], check, probe)
    requires forall c :: c in results[..n] && Of(c, check, probe) ==> c.TimestampMS < results[n].TimestampMS
    ensures IsLatest(results[..n + 1], check, probe, results[n])
  {
    forall j | 0 <= j < n && Of(results[j], check, probe)
      ensures results[j].TimestampMS < results[n].TimestampMS
    {
      assert results[..n][j] in results[..n];
    }
    assert LatestAt(results[..n + 1], check, probe, n);
  }

  lemma LatestDominates(results: seq<ResultContent>, check: string, probe: Id, c: ResultContent, d: ResultContent)
    requires IsLatest(results, check, probe, c) && d in results && Of(d, check, probe)
    ensures d.TimestampMS <= c.TimestampMS && Of(c, check, probe) && c in results
  {
  }

  lemma ReduceOne(results: seq<ResultContent>, n: nat, prev: map<string, Latest>, out: map<string, Latest>)
    requires n < |results| && IsReduction(results[..n], prev)
    requires var c := results[n]; var m := if c.CheckID in prev then prev[c.CheckID] else map[];
      out == prev[c.CheckID := if c.ProbeID !in m || c.TimestampMS > m[c.ProbeID].TimestampMS then m[c.ProbeID := c] else m]
    ensures IsReduction(results[..n + 1], out)
  {
    var c := results[n];
    assert results[..n + 1] == results[..n] + [c];
    forall check, probe | check in out && probe in out[check]
      ensures IsLatest(results[..n + 1], check, probe, out[check][probe])
    {
      ReduceAt(results, n, prev, out, check, probe);
    }
  }

  lemma ReduceAt(results: seq<ResultContent>, n: nat, prev: map<string, Latest>, out: map<string, Latest>, check: string, probe: Id)
    requires n < |results| && IsReduction(results[..n], prev)
    requires var c := results[n]; var m := if c.CheckID in prev then prev[c.CheckID] else map[];
      out == prev[c.CheckID := if c.ProbeID !in m || c.TimestampMS > m[c.ProbeID].TimestampMS then m[c.ProbeID := c] else m]
    requires check in out && probe in out[check]
    ensures IsLatest(results[..n + 1], check, probe, out[check][probe])
  {
    var c := results[n];
    if Of(c, check, probe) && (check !in prev || probe !in prev[check] || c.TimestampMS > prev[check][probe].TimestampMS) {
      forall d | d in results[..n] && Of(d, check, probe)
        ensures d.TimestampMS < c.TimestampMS
      {
        LatestDominates(results[..n], check, probe, prev[check][probe], d);
      }
      BecomesLatest(results, n, check, probe);
    } else {
      StaysLatest(results, n, check, probe, prev[check][probe]);
    }
  }

  // ---- corroboration ----

  ghost function DownProbes(latest: Latest): set<Id> {
    set p | p in latest && latest[p].Status == Down
  }

  /** Every probe whose newest result is an "up" has been quiet for the window. */
  ghost predicate UpsAreOld(latest: Latest, forSeconds: int, now: int) {
    forall p :: p in latest && latest[p].Status == Up && latest[p].TimestampMS > 0 ==>
      now - latest[p].TimestampMS >= forSeconds * 1000
  }

  ghost function Corroborated(latest: Latest, failLocations: int, forSeconds: int, now: int): Status {
    if |DownProbes(latest)| >= failLocations && |DownProbes(latest)| >= 1 && UpsAreOld(latest, forSeconds, now)
    then Down else Up
  }

  method CorroboratedStatus(latest: Latest, failLocations: int, forSeconds: int, now: int) returns (r: Option<Status>)
    ensures r == if latest == map[] then None else Some(Corroborated(latest, failLocations, forSeconds, now))
  {
    if |latest| == 0 {
      return None;
    }
    var need := if failLocations < 1 then 1 else failLocations;
    var down := 0;
    var newestUp := 0;
    var todo := latest.Keys;
    ghost var downs: set<Id> := {};
    while todo != {}
      invariant todo <= latest.Keys
      invariant downs == (set p | p in latest && p !in todo && latest[p].Status == Down) && down == |downs|
      invariant newestUp >= 0
      invariant forall p :: p in latest.Keys - todo && latest[p].Status == Up ==> latest[p].TimestampMS <= newestUp
      invariant newestUp > 0 ==> exists p :: p in latest && latest[p].Status == Up && latest[p].TimestampMS == newestUp
    {
      var p :| p in todo;
      todo := todo - {p};
      match latest[p].Status {
        case Down =>
          downs := downs + {p};
          down := down + 1;
        case Up =>
          if latest[p].TimestampMS > newestUp {
            newestUp := latest[p].TimestampMS;
          }
        case Degraded =>
      }
    }
    assert downs == DownProbes(latest);
    if down >= need && (newestUp == 0 || now - newestUp >= forSeconds * 1000) {
      return Some(Down);
    }
    return Some(Up);
  }

  /** The probes whose newest result for the check is "down". */
  ghost predicate LastSaidDown(results: seq<ResultContent>, check: string, probe: Id) {
    exists c :: IsLatest(results, check, probe, c) && c.Status == Down
  }

  /** End to end: "down" needs enough distinct probes, and no probe that last said "up" within the window. */
  lemma DownNeedsWitnesses(results: seq<ResultContent>, out: map<string, Latest>, check: string,
                           failLocations: int, forSeconds: int, now: int)
    requires IsReduction(results, out) && check in out
    ensures Corroborated(out[check], failLocations, forSeconds, now) == Down <==>
      && (exists P: set<Id> :: |P| >= failLocations && |P| >= 1 && forall p :: p in P ==> LastSaidDown(results, check, p))
      && (forall p, c :: IsLatest(results, check, p, c) && c.Status == Up && c.TimestampMS > 0 ==>
            now - c.TimestampMS >= forSeconds * 1000)
  {
    var latest := out[check];
    forall p, c | IsLatest(results, check, p, c)
      ensures p in latest && latest[p] == c
    {
      LatestUnique(results, check, p, c, latest);
    }
    forall p
      ensures LastSaidDown(results, check, p) <==> p in DownProbes(latest)
    {
    }
    if P: set<Id> :| |P| >= failLocations && |P| >= 1 && forall p :: p in P ==> LastSaidDown(results, check, p) {
      SubsetSize(P, DownProbes(latest));
    }
  }

  lemma LatestUnique(results: seq<ResultContent>, check: string, p: Id, c: ResultContent, latest: Latest)
    requires forall q :: q in latest ==> IsLatest(results, check, q, latest[q])
    requires forall d :: d in results && d.CheckID == check ==> d.ProbeID in latest
    requires IsLatest(results, check, p, c)
    ensures p in latest && latest[p] == c
  {
    var i: nat :| LatestAt(results, check, p, i) && results[i] == c;
    assert c in results;
    var j: nat :| LatestAt(results, check, p, j) && results[j] == latest[p];
    assert Of(results[i], check, p) && Of(results[j], check, p);
  }

  // ---- the package comment's own rule ----

  /** c, measured since the epoch, reports the check up less than forSeconds before now. */
  predicate UpWithin(c: ResultContent, check: string, forSeconds: int, now: int) {
    c.CheckID == check && c.Status == Up && c.TimestampMS > 0 && now - c.TimestampMS < forSeconds * 1000
  }

  /** Enough probes last said down, and nothing at all has reported up within the window. */
  ghost predicate DownAsDocumented(results: seq<ResultContent>, latest: Latest, check: string,
                                   failLocations: int, forSeconds: int, now: int) {
    && |DownProbes(latest)| >= failLocations && |DownProbes(latest)| >= 1
    && forall c :: c in results ==> !UpWithin(c, check, forSeconds, now)
  }

  /** The probe reported up within the window, and something else since. */
  ghost predicate LeftUp(results: seq<ResultContent>, latest: Latest, check: string, probe: Id, forSeconds: int, now: int) {
    && probe in latest && latest[probe].Status != Up
    && exists c :: c in results && c.ProbeID == probe && UpWithin(c, check, forSeconds, now)
  }

  /**
   The package comment asks that nothing has reported up within the window; the code looks only at
   each probe's newest result.  The two agree exactly when the code says "up", or no probe has left
   an up of the window behind.
   */
  lemma CommentHoldsExactly(results: seq<ResultContent>, out: map<string, Latest>, check: string,
                            failLocations: int, forSeconds: int, now: int)
    requires IsReduction(results, out) && check in out
    ensures var down := Corroborated(out[check], failLocations, forSeconds, now) == Down;
      (down <==> DownAsDocumented(results, out[check], check, failLocations, forSeconds, now)) <==>
      (down ==> forall p :: !LeftUp(results, out[check], check, p, forSeconds, now))
  {
    var latest := out[check];
    forall p | p in latest
      ensures Of(latest[p], check, p) && latest[p] in results
    {
      LatestIsOf(results, check, p, latest[p]);
    }
    if Corroborated(latest, failLocations, forSeconds, now) == Down {
      forall c | c in results && UpWithin(c, check, forSeconds, now)
        ensures LeftUp(results, latest, check, c.ProbeID, forSeconds, now)
      {
        LatestDominates(results, check, c.ProbeID, latest[c.ProbeID], c);
      }
    }
  }

  lemma LatestIsOf(results: seq<ResultContent>, check: string, probe: Id, c: ResultContent)
    requires IsLatest(results, check, probe, c)
    ensures Of(c, check, probe) && c in results
  {
  }

  /** A probe that was up within any window and is down now does not hold the alert back. */
  lemma RecentUpDoesNotHoldBack(up: ResultContent, down: ResultContent, out: map<string, Latest>, forSeconds: int, now: int)
    requires up.CheckID == down.CheckID && up.ProbeID == down.ProbeID
    requires UpWithin(up, up.CheckID, forSeconds, now)
    requires up.TimestampMS < down.TimestampMS <= now && down.Status == Down
    requires IsReduction([up, down], out)
    ensures Corroborated(out[up.CheckID], 1, forSeconds, now) == Down
    ensures !DownAsDocumented([up, down], out[up.CheckID], up.CheckID, 1, forSeconds, now)
  {
    var check := up.CheckID;
    var rs := [up, down];
    assert rs[0] == up && rs[1] == down;
    assert up in rs && down in rs;
    forall p | p in out[check]
      ensures p == down.ProbeID && out[check][p] == down
    {
      var i: nat :| LatestAt(rs, check, p, i) && rs[i] == out[check][p];
      assert Of(rs[1], check, p);
    }
    assert DownProbes(out[check]) == {down.ProbeID};
  }

  // ---- evaluation and delivery ----

  /** A send is attempted: this hub is responsible and the status differs from what it takes for delivered. */
  ghost predicate MaySend(score: Hash, self: Id, key: string, recipients: set<Id>, live: set<Id>, m: ByHub, observed: Status) {
    && Wins(score, key, recipients * (live + {self}), self)
    && exists st :: IsDelivered(m, recipients, st) && st != observed
  }

  /** Nothing is attempted: not responsible, or the status is already taken for delivered. */
  ghost predicate MaySkip(score: Hash, self: Id, key: string, recipients: set<Id>, live: set<Id>, m: ByHub, observed: Status) {
    !Wins(score, key, recipients * (live + {self}), self) || IsDelivered(m, recipients, observed)
  }

  /** What one pass does to the delivery state of one rule. */
  ghost predicate Evaluated(score: Hash, self: Id, rule: AlertRule, live: set<Id>, observed: Option<Status>,
                            before: ByHub, after: ByHub, reachable: bool, ts: int) {
    if observed.None? then after == before
    else
      || (MaySkip(score, self, rule.ID, rule.Recipients.Keys, live, before, observed.value) && after == before)
      || (MaySend(score, self, rule.ID, rule.Recipients.Keys, live, before, observed.value) &&
          after == if reachable then Merge(before, Delivery(observed.value, self, ts)) else before)
  }

  function LatestOf(byCheck: map<string, Latest>, check: string): Latest {
    if check in byCheck then byCheck[check] else map[]
  }

  ghost function Observed(rule: AlertRule, latest: Latest, now: int): Option<Status> {
    if latest == map[] then None
    else Some(Corroborated(latest, rule.FailLocations, rule.ForSeconds, now))
  }

  // ---- from the results to the delivery state, in the rule's own terms ----

  ghost predicate HasResults(results: seq<ResultContent>, check: string) {
    exists c :: c in results && c.CheckID == check
  }

  /** Enough probes last said down, at least one, and no probe that last said up did so within the rule's window. */
  ghost predicate SeenDown(results: seq<ResultContent>, rule: AlertRule, now: int) {
    && (exists P: set<Id> :: |P| >= rule.FailLocations && |P| >= 1 && forall p :: p in P ==> LastSaidDown(results, rule.CheckID, p))
    && (forall p, c :: IsLatest(results, rule.CheckID, p, c) && c.Status == Up && c.TimestampMS > 0 ==>
          now - c.TimestampMS >= rule.ForSeconds * 1000)
  }

  /** The hub takes st, and nothing else, for delivered. */
  ghost predicate TakesForDelivered(m: ByHub, recipients: set<Id>, st: Status) {
    forall su :: IsDelivered(m, recipients, su) <==> su == st
  }

  /**
   What a pass does to one rule.  A check without results changes nothing; otherwise the status seen is
   claimed if this hub wins among the live recipients, takes another status for delivered and can reach
   the destination, and in every other case nothing changes.
   */
  ghost predicate Fired(score: Hash, self: Id, rule: AlertRule, live: set<Id>, results: seq<ResultContent>, now: int,
                        reachable: bool, ts: int, before: ByHub, after: ByHub) {
    var recipients := rule.Recipients.Keys;
    var seen := if SeenDown(results, rule, now) then Down else Up;
    var may := HasResults(results, rule.CheckID) && reachable && Wins(score, rule.ID, recipients * live, self);
    && (after == before || after == Merge(before, Delivery(seen, self, ts)))
    && (!may || TakesForDelivered(before, recipients, seen) ==> after == before)
    && (may && !IsDelivered(before, recipients, seen) ==> after == Merge(before, Delivery(seen, self, ts)))
  }

  lemma EvaluatedIsFired(score: Hash, self: Id, rule: AlertRule, live: set<Id>, results: seq<ResultContent>,
                         byCheck: map<string, Latest>, now: int, reachable: bool, ts: int, before: ByHub, after: ByHub)
    requires IsReduction(results, byCheck) && self in live
    requires Evaluated(score, self, rule, live, Observed(rule, LatestOf(byCheck, rule.CheckID), now), before, after, reachable, ts)
    ensures Fired(score, self, rule, live, results, now, reachable, ts, before, after)
  {
    var latest := LatestOf(byCheck, rule.CheckID);
    LatestSeesResults(results, byCheck, rule.CheckID);
    assert live + {self} == live;
    if HasResults(results, rule.CheckID) {
      DownNeedsWitnesses(results, byCheck, rule.CheckID, rule.FailLocations, rule.ForSeconds, now);
      assert Observed(rule, latest, now) == Some(if SeenDown(results, rule, now) then Down else Up);
    }
  }

  lemma LatestSeesResults(results: seq<ResultContent>, byCheck: map<string, Latest>, check: string)
    requires IsReduction(results, byCheck)
    ensures HasResults(results, check) <==> LatestOf(byCheck, check) != map[]
    ensures HasResults(results, check) ==> check in byCheck
  {
    if LatestOf(byCheck, check) != map[] {
      var p :| p in byCheck[check];
      LatestIsOf(results, check, p, byCheck[check][p]);
    }
    if c :| c in results && c.CheckID == check {
      assert c.ProbeID in byCheck[check];
    }
  }

  class Engine {
    const self: Id
    const score: Hash
    const alerts: MemAlerts

    constructor (self: Id, score: Hash, alerts: MemAlerts)
      requires self != ""
      ensures this.self == self && this.score == score && this.alerts == alerts
    {
      this.self := self;
      this.score := score;
      this.alerts := alerts;
    }

    /** The status of the newest claim of a recipient; "up" when there is none. */
    method DeliveredStatus(rule: AlertRule) returns (st: Status)
      ensures IsDelivered(StateOf(alerts.state, rule.ID), rule.Recipients.Keys, st)
    {
      var m := StateOf(alerts.state, rule.ID);
      var newest: Option<Delivery> := None;
      var todo := rule.Recipients.Keys;
      while todo != {}
        invariant todo <= rule.Recipients.Keys
        invariant newest.None? <==> forall r :: r in rule.Recipients.Keys - todo ==> r !in m
        invariant newest.Some? ==> exists r :: r in rule.Recipients.Keys - todo && r in m && m[r] == newest.value
        invariant newest.Some? ==> forall r :: r in rule.Recipients.Keys - todo && r in m ==>
          m[r].TimestampMS <= newest.value.TimestampMS
      {
        var r :| r in todo;
        todo := todo - {r};
        var d := alerts.GetDeliveryBy(rule.ID, r);
        if d.Some? && (newest.None? || d.value.TimestampMS > newest.value.TimestampMS) {
          newest := d;
        }
      }
      if newest.None? {
        return Up;
      }
      ghost var r :| r in rule.Recipients && r in m && m[r] == newest.value;
      assert IsNewestClaim(m, rule.Recipients.Keys, r);
      return newest.value.Status;
    }

    /** The live recipients, in any order. */
    method LiveRecipients(rule: AlertRule, live: set<Id>) returns (candidates: seq<Id>)
      ensures Elements(candidates) == rule.Recipients.Keys * live
    {
      candidates := [];
      var todo := rule.Recipients.Keys;
      while todo != {}
        invariant todo <= rule.Recipients.Keys
        invariant Elements(candidates) == (rule.Recipients.Keys - todo) * live
      {
        var r :| r in todo;
        todo := todo - {r};
        if r in live {
          assert Elements(candidates + [r]) == Elements(candidates) + {r};
          candidates := candidates + [r];
        }
      }
    }

    /**
     One rule of one pass.  `reachable` says whether a notifier exists, the destination
     decrypts and the send succeeds; only then does the delivered state advance.
     */
    method EvaluateRule(rule: AlertRule, peers: set<Id>, latest: Latest, now: int, reachable: bool, ts: int)
      returns (sent: Option<Status>)
      requires "" !in peers && self != ""
      modifies alerts`state
      ensures Evaluated(score, self, rule, peers + {self}, Observed(rule, latest, now),
                        StateOf(old(alerts.state), rule.ID), StateOf(alerts.state, rule.ID), reachable, ts)
      ensures sent.Some? ==> reachable && self in rule.Recipients
      ensures sent.Some? ==>
        StateOf(alerts.state, rule.ID) == Merge(StateOf(old(alerts.state), rule.ID), Delivery(sent.value, self, ts))
      ensures sent.None? ==> alerts.state == old(alerts.state)
      ensures forall k :: k != rule.ID ==> StateOf(alerts.state, k) == StateOf(old(alerts.state), k)
    {
      sent := None;
      var candidates := LiveRecipients(rule, peers + {self});
      assert "" !in Elements(candidates);
      var observed := CorroboratedStatus(latest, rule.FailLocations, rule.ForSeconds, now);
      var responsible := ResponsibleAmong(score, self, candidates, rule.ID);
      assert rule.Recipients.Keys * (peers + {self} + {self}) == Elements(candidates);
      if !responsible {
        return;
      }
      if observed.None? {
        return;
      }
      var delivered := DeliveredStatus(rule);
      if observed.value == delivered {
        return;
      }
      if !reachable {
        return;
      }
      var _ := alerts.MergeDelivery(rule.ID, Delivery(observed.value, self, ts));
      sent := observed;
    }

    /** One pass over all active rules; each rule is settled by itself, by the results of its own check. */
    method Evaluate(rules: seq<AlertRule>, peers: set<Id>, results: seq<ResultContent>, now: int,
                    reachable: map<string, bool>, ts: map<string, int>)
      requires "" !in peers && self != ""
      requires forall i, j :: 0 <= i < j < |rules| ==> rules[i].ID != rules[j].ID
      requires forall r :: r in rules ==> r.ID in reachable && r.ID in ts
      modifies alerts`state
      ensures exists latest ::
        (IsReduction(results, latest) && Passed(rules, |rules|, peers, latest, now, reachable, ts, old(alerts.state), alerts.state))
      ensures forall r :: r in rules ==>
        Fired(score, self, r, peers + {self}, results, now, reachable[r.ID], ts[r.ID],
              StateOf(old(alerts.state), r.ID), StateOf(alerts.state, r.ID))
      ensures forall k :: (forall r :: r in rules ==> r.ID != k) ==> StateOf(alerts.state, k) == StateOf(old(alerts.state), k)
    {
      var byCheck := LatestPerProbeByCheck(results);
      for i := 0 to |rules|
        invariant Passed(rules, i, peers, byCheck, now, reachable, ts, old(alerts.state), alerts.state)
      {
        var r := rules[i];
        assert r in rules;
        ghost var before := alerts.state;
        var _ := EvaluateRule(r, peers, LatestOf(byCheck, r.CheckID), now, reachable[r.ID], ts[r.ID]);
        PassOne(rules, i, peers, byCheck, now, reachable, ts, old(alerts.state), before, alerts.state);
      }
      forall r | r in rules
        ensures Fired(score, self, r, peers + {self}, results, now, reachable[r.ID], ts[r.ID],
                      StateOf(old(alerts.state), r.ID), StateOf(alerts.state, r.ID))
      {
        var j :| 0 <= j < |rules| && rules[j] == r;
        assert RuleEvaluated(score, self, rules[j], peers, byCheck, now, reachable, ts, old(alerts.state), alerts.state);
        EvaluatedIsFired(score, self, r, peers + {self}, results, byCheck, now, reachable[r.ID], ts[r.ID],
                         StateOf(old(alerts.state), r.ID), StateOf(alerts.state, r.ID));
      }
    }

    /** The first n rules are settled; nothing else has changed. */
    ghost predicate Passed(rules: seq<AlertRule>, n: nat, peers: set<Id>, latest: map<string, Latest>, now: int,
                           reachable: map<string, bool>, ts: map<string, int>,
                           before: map<string, ByHub>, after: map<string, ByHub>)
      requires n <= |rules| && forall r :: r in rules ==> r.ID in reachable && r.ID in ts
    {
      && (forall j :: 0 <= j < n ==>
            RuleEvaluated(score, self, rules[j], peers, latest, now, reachable, ts, before, after))
      && (forall k :: (forall j :: 0 <= j < n ==> rules[j].ID != k) ==> StateOf(after, k) == StateOf(before, k))
    }

    lemma PassOne(rules: seq<AlertRule>, n: nat, peers: set<Id>, latest: map<string, Latest>, now: int,
                  reachable: map<string, bool>, ts: map<string, int>,
                  first: map<string, ByHub>, before: map<string, ByHub>, after: map<string, ByHub>)
      requires n < |rules| && forall r :: r in rules ==> r.ID in reachable && r.ID in ts
      requires forall i, j :: 0 <= i < j < |rules| ==> rules[i].ID != rules[j].ID
      requires Passed(rules, n, peers, latest, now, reachable, ts, first, before)
      requires RuleEvaluated(score, self, rules[n], peers, latest, now, reachable, ts, before, after)
      requires forall k :: k != rules[n].ID ==> StateOf(after, k) == StateOf(before, k)
      ensures Passed(rules, n + 1, peers, latest, now, reachable, ts, first, after)
    {
      assert StateOf(before, rules[n].ID) == StateOf(first, rules[n].ID);
      forall j | 0 <= j < n
        ensures RuleEvaluated(score, self, rules[j], peers, latest, now, reachable, ts, first, after)
      {
        assert StateOf(after, rules[j].ID) == StateOf(before, rules[j].ID);
      }
      forall k | forall j :: 0 <= j < n + 1 ==> rules[j].ID != k
        ensures StateOf(after, k) == StateOf(first, k)
      {
        assert rules[n].ID != k;
      }
    }
  }

  ghost predicate RuleEvaluated(score: Hash, self: Id, rule: AlertRule, peers: set<Id>, latest: map<string, Latest>, now: int,
                                reachable: map<string, bool>, ts: map<string, int>,
                                before: map<string, ByHub>, after: map<string, ByHub>)
    requires rule.ID in reachable && rule.ID in ts
  {
    Evaluated(score, self, rule, peers + {self}, Observed(rule, LatestOf(latest, rule.CheckID), now),
              StateOf(before, rule.ID), StateOf(after, rule.ID), reachable[rule.ID], ts[rule.ID])
  }
}
