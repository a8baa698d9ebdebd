/** hub/store/alert.go: versioned alert rules, and who delivered what for each of them. */
module AlertStore {
  import opened Ids
  import opened Lww
  import opened Protocol
  import opened Ranking

  datatype Delivery = Delivery(Status: Status, HubID: Id, TimestampMS: int)

  /** The delivery state of one rule: each hub's own last claim. */
  type ByHub = map<Id, Delivery>

  function Merge(m: ByHub, d: Delivery): ByHub {
    if d.HubID in m && m[d.HubID].TimestampMS >= d.TimestampMS then m else m[d.HubID := d]
  }

  function MergeAll(ds: seq<Delivery>): ByHub {
    if ds == [] then map[] else Merge(MergeAll(ds[..|ds| - 1]), ds[|ds| - 1])
  }

  ghost predicate IsLast(d: Delivery, D: set<Delivery>) {
    d in D && forall e :: e in D && e.HubID == d.HubID ==> e.TimestampMS <= d.TimestampMS
  }

  /** Each hub's newest claim stands alone: no second claim of that hub bears its stamp. */
  ghost predicate OwnStamps(D: set<Delivery>) {
    forall d, e :: IsLast(d, D) && IsLast(e, D) && d.HubID == e.HubID ==> d == e
  }

  lemma {:induction false} MergeAllKeepsLast(ds: seq<Delivery>)
    ensures forall h :: h in MergeAll(ds) ==> MergeAll(ds)[h].HubID == h && IsLast(MergeAll(ds)[h], Elements(ds))
    ensures forall d :: d in ds ==> d.HubID in MergeAll(ds)
  {
    if ds == [] {
    } else {
      var init, d := ds[..|ds| - 1], ds[|ds| - 1];
      MergeAllKeepsLast(init);
      assert ds == init + [d];
      assert Elements(ds) == Elements(init) + {d};
      forall h | h in MergeAll(ds)
        ensures MergeAll(ds)[h].HubID == h && IsLast(MergeAll(ds)[h], Elements(ds))
      {
        if h in MergeAll(init) {
          assert IsLast(MergeAll(init)[h], Elements(init));
        }
        if h == d.HubID && h !in MergeAll(init) {
          forall e | e in Elements(ds) && e.HubID == h
            ensures e == d
          {
            assert e in init ==> e.HubID in MergeAll(init);
          }
        }
      }
    }
  }

  /** Gossip in any order and any multiplicity leaves the same state. */
  lemma MergeOrderFree(ds: seq<Delivery>, es: seq<Delivery>)
    requires Elements(ds) == Elements(es) && OwnStamps(Elements(ds))
    ensures MergeAll(ds) == MergeAll(es)
  {
    MergeAllKeepsLast(ds);
    MergeAllKeepsLast(es);
    forall h
      ensures h in MergeAll(ds) <==> h in MergeAll(es)
    {
      if h in MergeAll(ds) { assert MergeAll(ds)[h] in Elements(es); }
      if h in MergeAll(es) { assert MergeAll(es)[h] in Elements(ds); }
    }
  }

  lemma {:induction false} FirstLastStays(d: Delivery, ds: seq<Delivery>)
    requires forall e :: e in ds && e.HubID == d.HubID ==> e.TimestampMS <= d.TimestampMS
    ensures d.HubID in MergeAll([d] + ds) && MergeAll([d] + ds)[d.HubID] == d
  {
    if ds == [] {
      assert ([d] + ds)[..0] == [];
    } else {
      FirstLastStays(d, ds[..|ds| - 1]);
      assert ([d] + ds)[..|ds|] == [d] + ds[..|ds| - 1];
    }
  }

  lemma {:induction false} Enumerate(D: set<Delivery>) returns (ds: seq<Delivery>)
    ensures Elements(ds) == D
  {
    if D == {} {
      ds := [];
    } else {
      var d :| d in D;
      var rest := Enumerate(D - {d});
      ds := rest + [d];
      assert Elements(ds) == Elements(rest) + {d};
    }
  }

  ghost predicate SameMerge(ds: seq<Delivery>, es: seq<Delivery>) {
    MergeAll(ds) == MergeAll(es)
  }

  /** ... and the stamps are what it takes: with two last claims of one hub the order shows. */
  lemma OrderFreeExactly(D: set<Delivery>)
    ensures OwnStamps(D) <==> forall ds, es :: Elements(ds) == D == Elements(es) ==> SameMerge(ds, es)
  {
    if OwnStamps(D) {
      forall ds, es | Elements(ds) == D == Elements(es)
        ensures SameMerge(ds, es)
      {
        MergeOrderFree(ds, es);
      }
    } else {
      var d, e :| IsLast(d, D) && IsLast(e, D) && d.HubID == e.HubID && d != e;
      var s := Enumerate(D);
      forall x
        ensures x in s <==> x in D
      {
        assert x in s <==> x in Elements(s);
      }
      FirstLastStays(d, s);
      FirstLastStays(e, s);
      assert Elements([d] + s) == D == Elements([e] + s);
      assert !SameMerge([d] + s, [e] + s);
    }
  }

  /**
   st is the status a hub holding m takes for delivered: the newest recipient claim, or
   "up" when there is none.  Non-recipients are never consulted.
   */
  ghost predicate IsDelivered(m: ByHub, recipients: set<Id>, st: Status) {
    if forall r :: r in recipients ==> r !in m then st == Up
    else exists r :: IsNewestClaim(m, recipients, r) && m[r].Status == st
  }

  ghost predicate IsNewestClaim(m: ByHub, recipients: set<Id>, r: Id) {
    r in recipients && r in m && forall q :: q in recipients && q in m ==> m[q].TimestampMS <= m[r].TimestampMS
  }

  function StateOf(state: map<string, ByHub>, ruleID: string): ByHub {
    if ruleID in state then state[ruleID] else map[]
  }

  function AsRec(r: AlertRule): Rec<AlertRule> {
    Rec(r.ID, r.UpdatedMS, r.ExpiryMS, r.Deleted, r)
  }

  predicate ExpiredRule(r: AlertRule, now: int) {
    r.ExpiryMS > 0 && r.ExpiryMS < now
  }

  /** The delivery state left when the rules go from `before` to `after`. */
  ghost function WithoutDropped(state: map<string, ByHub>, before: map<string, AlertRule>, after: map<string, AlertRule>): map<string, ByHub> {
    map k | k in state && !(k in before && k !in after) :: state[k]
  }

  lemma DropOne(state: map<string, ByHub>, before: map<string, AlertRule>, after: map<string, AlertRule>, id: string)
    requires id in before
    ensures WithoutDropped(state, before, after - {id}) == WithoutDropped(state, before, after) - {id}
  {
  }

  /** r is the live newest version at time now whenever there is one, and no live version otherwise. */
  ghost predicate AnswersFor(r: Option<AlertRule>, R: set<Rec<AlertRule>>, ruleID: string, now: int) {
    forall x: Rec<AlertRule> :: x.key == ruleID ==>
      (x in NewestActive(R, now) <==> r.Some? && AsRec(r.value) == x && !x.deleted && !Expired(x, now))
  }

  lemma StoredAnswers(es: seq<Event<AlertRule>>, ruleID: string, now: int, r: Option<AlertRule>)
    requires ClockOrdered(es) && now >= Clock(es) && Safe(Received(es))
    requires r.None? <==> ruleID !in Run(es)
    requires r.Some? ==> Run(es)[ruleID] == AsRec(r.value)
    ensures AnswersFor(r, Received(es), ruleID, now)
  {
    forall x: Rec<AlertRule> | x.key == ruleID
      ensures x in NewestActive(Received(es), now) <==>
        r.Some? && AsRec(r.value) == x && !x.deleted && !Expired(x, now)
    {
      StoredIsNewest(es, now, x);
    }
  }

  /** What is left at time now: the rules that never expire or have not yet, and of the delivery state all but that of the rules gone. */
  ghost predicate Unexpired(before: map<string, AlertRule>, state: map<string, ByHub>, now: int,
                            after: map<string, AlertRule>, state': map<string, ByHub>) {
    && (forall k :: k in after <==> k in before && (before[k].ExpiryMS <= 0 || before[k].ExpiryMS >= now))
    && (forall k :: k in after ==> after[k] == before[k])
    && (forall k :: k in state' <==> k in state && (k in before ==> k in after))
    && (forall k :: k in state' ==> state'[k] == state[k])
  }

  class MemAlerts {
    var rules: map<string, AlertRule>
    var state: map<string, ByHub>
    /** Everything that has happened to the rules. */
    ghost var events: seq<Event<AlertRule>>

    ghost predicate Valid()
      reads this
    {
      Contents() == Run(events)
    }

    ghost function Contents(): Store<AlertRule>
      reads this
    {
      map k | k in rules :: AsRec(rules[k])
    }

    constructor ()
      ensures Valid() && events == [] && state == map[]
    {
      rules, state := map[], map[];
      events := [];
    }

    /** A newer version replaces the rule; a newer tombstone also drops its delivery state. */
    method Upsert(r: AlertRule)
      requires Valid()
      modifies this
      ensures Valid() && events == old(events) + [Receive(AsRec(r))]
      ensures state == if r.Deleted && rules != old(rules) then old(state) - {r.ID} else old(state)
      ensures rules == if r.ID in old(rules) && r.UpdatedMS <= old(rules)[r.ID].UpdatedMS then old(rules) else old(rules)[r.ID := r]
    {
      Step(events, Receive(AsRec(r)));
      events := events + [Receive(AsRec(r))];
      if r.ID in rules && r.UpdatedMS <= rules[r.ID].UpdatedMS {
        return;
      }
      rules := rules[r.ID := r];
      if r.Deleted {
        state := state - {r.ID};
      }
    }

    method ListActive(now: int) returns (out: seq<AlertRule>)
      requires Valid()
      modifies this
      ensures Valid() && events == old(events) + [List(now)]
      ensures state == WithoutDropped(old(state), old(rules), rules)
      ensures forall r :: r in out <==> r.ID in rules && rules[r.ID] == r && !r.Deleted
      ensures forall i, j :: 0 <= i < j < |out| ==> out[i].ID != out[j].ID
      ensures (set r | r in out :: AsRec(r)) == Listing(old(events), now)
      ensures ClockOrdered(events) && Safe(Received(events)) ==>
        (set r | r in out :: AsRec(r)) == NewestActive(Received(events), now)
      ensures Unexpired(old(rules), old(state), now, rules, state)
    {
      Step(events, List(now));
      assert forall k :: k in rules ==> Contents()[k].key == rules[k].ID;
      out := Scan(now, false);
      ListedAre(old(Contents()), now, out);
      events := events + [List(now)];
      if ClockOrdered(events) && Safe(Received(events)) {
        ListingIsNewest(old(events), now);
      }
    }

    method ListForGossip(now: int) returns (out: seq<AlertRule>)
      requires Valid()
      modifies this
      ensures Valid() && events == old(events) + [List(now)]
      ensures state == WithoutDropped(old(state), old(rules), rules)
      ensures forall r :: r in out <==> r.ID in rules && rules[r.ID] == r
      ensures forall i, j :: 0 <= i < j < |out| ==> out[i].ID != out[j].ID
      ensures Unexpired(old(rules), old(state), now, rules, state)
    {
      Step(events, List(now));
      assert forall k :: k in rules ==> Contents()[k].key == rules[k].ID;
      out := Scan(now, true);
      events := events + [List(now)];
    }

    /** The common loop: walk the rules in any order, dropping the expired ones with their state. */
    method Scan(now: int, tombstones: bool) returns (out: seq<AlertRule>)
      requires forall k :: k in rules ==> rules[k].ID == k
      modifies this`rules, this`state
      ensures rules == map k | k in old(rules) && !ExpiredRule(old(rules)[k], now) :: old(rules)[k]
      ensures state == WithoutDropped(old(state), old(rules), rules)
      ensures forall r :: r in out <==> r.ID in rules && rules[r.ID] == r && (tombstones || !r.Deleted)
      ensures forall i, j :: 0 <= i < j < |out| ==> out[i].ID != out[j].ID
    {
      out := [];
      assert WithoutDropped(state, rules, rules) == state;
      var todo := rules.Keys;
      while todo != {}
        invariant todo <= old(rules).Keys
        invariant rules == map k | k in old(rules) && (k in todo || !ExpiredRule(old(rules)[k], now)) :: old(rules)[k]
        invariant state == WithoutDropped(old(state), old(rules), rules)
        invariant forall r :: r in out <==> r.ID in rules && r.ID !in todo && rules[r.ID] == r && (tombstones || !r.Deleted)
        invariant forall i, j :: 0 <= i < j < |out| ==> out[i].ID != out[j].ID
      {
        var id :| id in todo;
        todo := todo - {id};
        var sa := rules[id];
        if ExpiredRule(sa, now) {
          DropOne(old(state), old(rules), rules, id);
          rules := rules - {id};
          state := state - {id};
        } else if !sa.Deleted || tombstones {
          out := out + [sa];
        }
      }
    }

    /** A version of the rule that was received; of safe records, the newest one as long as that is live. */
    method GetRule(ruleID: string) returns (r: Option<AlertRule>)
      ensures r.None? <==> ruleID !in rules
      ensures r.Some? ==> rules[ruleID] == r.value
      ensures Valid() && r.Some? ==> r.value.ID == ruleID && AsRec(r.value) in Received(events)
      ensures Valid() && ClockOrdered(events) && Safe(Received(events)) ==>
        forall now :: now >= Clock(events) ==> AnswersFor(r, Received(events), ruleID, now)
    {
      r := None;
      if ruleID in rules {
        r := Some(rules[ruleID]);
        assert Contents()[ruleID] == AsRec(rules[ruleID]);
      }
      if Valid() && ClockOrdered(events) && Safe(Received(events)) {
        assert forall k :: k in rules <==> k in Run(events);
        assert r.Some? ==> Run(events)[ruleID] == AsRec(r.value);
        forall now | now >= Clock(events)
          ensures AnswersFor(r, Received(events), ruleID, now)
        {
          StoredAnswers(events, ruleID, now, r);
        }
      }
    }

    method GetDeliveryBy(ruleID: string, hubID: Id) returns (d: Option<Delivery>)
      ensures d == if ruleID in state && hubID in state[ruleID] then Some(state[ruleID][hubID]) else None
    {
      if ruleID in state && hubID in state[ruleID] {
        return Some(state[ruleID][hubID]);
      }
      return None;
    }

    /** The newest claim of any hub. */
    method GetDelivery(ruleID: string) returns (d: Option<Delivery>)
      ensures d.None? <==> ruleID !in state || state[ruleID] == map[]
      ensures d.Some? ==> exists h :: h in state[ruleID] && state[ruleID][h] == d.value
      ensures d.Some? ==> forall h :: h in state[ruleID] ==> state[ruleID][h].TimestampMS <= d.value.TimestampMS
    {
      d := None;
      var byHub := StateOf(state, ruleID);
      var todo := byHub.Keys;
      while todo != {}
        invariant todo <= byHub.Keys
        invariant d.None? <==> todo == byHub.Keys
        invariant d.Some? ==> exists h :: h in byHub && byHub[h] == d.value
        invariant d.Some? ==> forall h :: h in byHub.Keys - todo ==> byHub[h].TimestampMS <= d.value.TimestampMS
      {
        var h :| h in todo;
        todo := todo - {h};
        if d.None? || byHub[h].TimestampMS > d.value.TimestampMS {
          d := Some(byHub[h]);
        }
      }
    }

    method MergeDelivery(ruleID: string, d: Delivery) returns (applied: bool)
      modifies this`state
      ensures state == old(state)[ruleID := Merge(StateOf(old(state), ruleID), d)]
      ensures applied <==> !(d.HubID in StateOf(old(state), ruleID) &&
                             StateOf(old(state), ruleID)[d.HubID].TimestampMS >= d.TimestampMS)
      // its claim is the later one, and everybody else's is untouched
      ensures ruleID in state && d.HubID in state[ruleID]
      ensures applied <==> !(ruleID in old(state) && d.HubID in old(state)[ruleID] &&
                             old(state)[ruleID][d.HubID].TimestampMS >= d.TimestampMS)
      ensures state[ruleID][d.HubID] == if applied then d else old(state)[ruleID][d.HubID]
      ensures forall h :: h in state[ruleID] && h != d.HubID ==>
        ruleID in old(state) && h in old(state)[ruleID] && state[ruleID][h] == old(state)[ruleID][h]
      ensures ruleID in old(state) ==> forall h :: h in old(state)[ruleID] ==> h in state[ruleID]
    {
      if ruleID !in state {
        state := state[ruleID := map[]];
      }
      var byHub := state[ruleID];
      if d.HubID in byHub && byHub[d.HubID].TimestampMS >= d.TimestampMS {
        return false;
      }
      state := state[ruleID := byHub[d.HubID := d]];
      return true;
    }
  }

  const DELIVERY_CLOCK_SKEW_MS := 2 * 60 * 1000

  /** What a hub does with a gossiped claim (hub/main.go): only plausible claims of recipients of a known rule count. */
  method IngestDelivery(alerts: MemAlerts, ruleID: string, d: Delivery, now: int)
    modifies alerts`state
    ensures StateOf(alerts.state, ruleID) ==
      if ruleID in alerts.rules && d.HubID in alerts.rules[ruleID].Recipients && d.TimestampMS <= now + 120_000
      then Merge(StateOf(old(alerts.state), ruleID), d)
      else StateOf(old(alerts.state), ruleID)
    ensures forall k :: k != ruleID ==> StateOf(alerts.state, k) == StateOf(old(alerts.state), k)
  {
    var rule := alerts.GetRule(ruleID);
    if rule.None? {
      return;
    }
    if d.HubID !in rule.value.Recipients {
      return;
    }
    if d.TimestampMS > now + DELIVERY_CLOCK_SKEW_MS {
      return;
    }
    var _ := alerts.MergeDelivery(ruleID, d);
  }

  lemma ListedAre(m: Store<AlertRule>, now: int, out: seq<AlertRule>)
    requires forall k :: k in m ==> m[k] == AsRec(m[k].payload) && m[k].key == k
    requires forall r :: r in out <==> r.ID in Prune(m, now) && Prune(m, now)[r.ID] == AsRec(r) && !r.Deleted
    ensures (set r | r in out :: AsRec(r)) == Active(Prune(m, now))
  {
    forall x | x in Active(Prune(m, now))
      ensures x in set r | r in out :: AsRec(r)
    {
      assert x.payload in out;
    }
  }
}
