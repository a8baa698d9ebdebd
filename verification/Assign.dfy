/** hub/assign/assign.go: greedy assignment of checks to probes. */
module Assign {
  import opened Ids
  import opened Protocol
  import opened Ranking
  import opened Sorting

  /** A probe; Capacity is checks per minute, at most 0 for unlimited. */
  datatype Probe = Probe(ID: Id, Capacity: int, SupportedTypes: set<string>)

  predicate Supports(p: Probe, t: string) {
    |p.SupportedTypes| == 0 || t in p.SupportedTypes
  }

  /** Checks per minute a spec consumes. */
  function CheckCost(s: CheckSpec): (r: real)
    ensures r > 0.0
  {
    var interval := if s.IntervalSeconds <= 0 then 60 else s.IntervalSeconds;
    60.0 / interval as real
  }

  /** A check's runs at its interval take up a minute; an interval of 0 or less is a minute. */
  lemma CostFillsAMinute(s: CheckSpec)
    ensures s.IntervalSeconds > 0 ==> CheckCost(s) * s.IntervalSeconds as real == 60.0
    ensures s.IntervalSeconds <= 0 ==> CheckCost(s) == 1.0
  {
  }

  type Loads = map<Id, real>

  datatype Plan = Plan(load: Loads, out: map<Id, seq<CheckSpec>>)

  // ---- what the greedy pass does, one check at a time ----

  function LoadOf(load: Loads, p: Id): real {
    if p in load then load[p] else 0.0
  }

  /** Least loaded first, ties by ID. */
  predicate Lighter(load: Loads, a: Id, b: Id) {
    if LoadOf(load, a) != LoadOf(load, b) then LoadOf(load, a) < LoadOf(load, b) else Less(a, b)
  }

  function ByLoad(load: Loads): (Id, Id) -> bool {
    (a, b) => Lighter(load, a, b)
  }

  lemma ByLoadIsStrictTotal(load: Loads)
    ensures StrictTotal(ByLoad(load))
  {
    LessIsStrictTotal();
  }

  predicate Fits(p: Probe, load: Loads, cost: real) {
    p.Capacity <= 0 || LoadOf(load, p.ID) + cost <= p.Capacity as real
  }

  ghost function Eligible(c: CheckSpec, probes: set<Probe>, load: Loads): set<Id> {
    set p | p in probes && Supports(p, c.Type) && Fits(p, load, CheckCost(c)) :: p.ID
  }

  /** The r least loaded of the probes that can run c within their capacity. */
  ghost function Chosen(c: CheckSpec, probes: set<Probe>, load: Loads, r: nat): set<Id> {
    Top(ByLoad(load), Eligible(c, probes, load), r)
  }

  ghost function Give(plan: Plan, c: CheckSpec, to: set<Id>): Plan {
    Plan(map p | p in plan.load :: plan.load[p] + if p in to then CheckCost(c) else 0.0,
         map p | p in plan.out :: if p in to then plan.out[p] + [c] else plan.out[p])
  }

  ghost function Empty(probes: set<Probe>): Plan {
    Plan(map p | p in IdSet(probes) :: 0.0, map p | p in IdSet(probes) :: [])
  }

  ghost function IdSet(probes: set<Probe>): set<Id> {
    set p | p in probes :: p.ID
  }

  ghost function PlaceAll(checks: seq<CheckSpec>, probes: set<Probe>, r: nat): (plan: Plan)
    ensures plan.load.Keys == plan.out.Keys == IdSet(probes)
  {
    if checks == [] then Empty(probes)
    else
      var plan := PlaceAll(checks[..|checks| - 1], probes, r);
      var c := checks[|checks| - 1];
      Give(plan, c, Chosen(c, probes, plan.load, r))
  }

  ghost predicate DistinctProbes(probes: set<Probe>) {
    forall p, q :: p in probes && q in probes && p.ID == q.ID ==> p == q
  }

  // ---- the computation ----

  ghost predicate DistinctIds(probes: seq<Probe>) {
    forall i, j :: 0 <= i < j < |probes| ==> probes[i].ID != probes[j].ID
  }

  function ByCheckId(): (CheckSpec, CheckSpec) -> bool {
    (a: CheckSpec, b: CheckSpec) => Less(a.ID, b.ID)
  }

  function ByProbeLoad(load: Loads): (Probe, Probe) -> bool {
    (a: Probe, b: Probe) => Lighter(load, a.ID, b.ID)
  }

  lemma OrdersAreWeak(load: Loads)
    ensures StrictWeak(ByCheckId()) && StrictWeak(ByProbeLoad(load))
  {
    LessIsStrictTotal();
    ByLoadIsStrictTotal(load);
    StrictTotalIsWeak(ByLoad(load));
    StrictTotalIsWeak(Less);
    assert forall a, b :: ByProbeLoad(load)(a, b) == ByLoad(load)(a.ID, b.ID);
    assert forall a, b :: ByCheckId()(a, b) == Less(a.ID, b.ID);
  }

  /** `ordered` is the checks in ID order. */
  ghost predicate IsOrdering(ordered: seq<CheckSpec>, checks: seq<CheckSpec>) {
    multiset(ordered) == multiset(checks) && Sorted(ByCheckId(), ordered)
  }

  ghost predicate InIdOrder(ordered: seq<CheckSpec>) {
    forall i, j :: 0 <= i < j < |ordered| ==> !Less(ordered[j].ID, ordered[i].ID)
  }

  /** The caller builds the probe list from a map keyed by probe ID. */
  method Assign(checks: seq<CheckSpec>, probes: seq<Probe>, redundancy: int) returns (out: map<Id, seq<CheckSpec>>)
    ensures out.Keys == IdSet(Elements(probes))
    ensures DistinctIds(probes) ==>
      exists ordered :: IsOrdering(ordered, checks) && InIdOrder(ordered) &&
                        out == PlaceAll(ordered, Elements(probes), if redundancy < 1 then 1 else redundancy).out
    // a redundancy below one counts as one
    ensures DistinctIds(probes) && Distinct(checks) ==> KeepsCapacity(out, probes)
    ensures DistinctIds(probes) && Distinct(checks) ==>
      forall c :: c in checks ==> FullyPlaced(out, probes, c, if redundancy < 1 then 1 else redundancy)
  {
    var r := if redundancy < 1 then 1 else redundancy;
    var load: Loads := map[];
    out := map[];
    for i := 0 to |probes|
      invariant load.Keys == out.Keys == IdSet(Elements(probes[..i]))
      invariant forall p :: p in load ==> load[p] == 0.0 && out[p] == []
    {
      assert Elements(probes[..i + 1]) == Elements(probes[..i]) + {probes[i]};
      out := out[probes[i].ID := []];
      load := load[probes[i].ID := 0.0];
    }
    assert probes[..|probes|] == probes;
    assert Plan(load, out) == Empty(Elements(probes));
    OrdersAreWeak(load);
    var ordered := Sort(checks, ByCheckId());
    for i := 0 to |ordered|
      invariant load.Keys == out.Keys == IdSet(Elements(probes))
      invariant DistinctIds(probes) ==> Plan(load, out) == PlaceAll(ordered[..i], Elements(probes), r)
    {
      assert ordered[..i + 1][..i] == ordered[..i];
      load, out := PlaceCheck(ordered[i], probes, r, load, out);
    }
    assert ordered[..|ordered|] == ordered;
    assert IsOrdering(ordered, checks);
    if DistinctIds(probes) && Distinct(checks) {
      AssignedIsFull(checks, ordered, probes, r, out);
    }
  }

  /** One iteration: rank the probes that support the check, hand it to the first r it fits. */
  method PlaceCheck(c: CheckSpec, probes: seq<Probe>, r: nat, load0: Loads, out0: map<Id, seq<CheckSpec>>)
    returns (load: Loads, out: map<Id, seq<CheckSpec>>)
    requires r >= 1
    requires load0.Keys == out0.Keys == IdSet(Elements(probes))
    ensures load.Keys == out.Keys == load0.Keys
    ensures DistinctIds(probes) ==>
      Plan(load, out) == Give(Plan(load0, out0), c, Chosen(c, Elements(probes), load0, r))
  {
    var candidates := Supporting(probes, c.Type);
    OrdersAreWeak(load0);
    var ranked := Sort(candidates, ByProbeLoad(load0));
    SameElements(ranked, candidates);
    forall p | p in ranked
      ensures p.ID in load0
    {
      assert p in Elements(candidates);
      assert p in Elements(probes);
    }
    load, out := Hand(c, ranked, r, load0, out0);
    if DistinctIds(probes) {
      RankedProbes(c, probes, load0, candidates, ranked);
      ChosenIsFirst(c, probes, r, load0, ranked);
    }
  }

  method Supporting(probes: seq<Probe>, t: string) returns (candidates: seq<Probe>)
    ensures DistinctIds(probes) ==> DistinctIds(candidates)
    ensures forall p :: p in candidates <==> p in probes && Supports(p, t)
  {
    candidates := [];
    for i := 0 to |probes|
      invariant DistinctIds(probes) ==> DistinctIds(candidates)
      invariant forall p :: p in candidates <==> p in probes[..i] && Supports(p, t)
    {
      assert probes[..i + 1] == probes[..i] + [probes[i]];
      if Supports(probes[i], t) {
        forall q | q in candidates && DistinctIds(probes)
          ensures q.ID != probes[i].ID
        {
          var j :| 0 <= j < i && probes[j] == q;
        }
        candidates := candidates + [probes[i]];
      }
    }
    assert probes[..|probes|] == probes;
  }

  /** The ranked probes the check fits, in order. */
  function Fitting(ranked: seq<Probe>, load: Loads, cost: real): seq<Id> {
    if ranked == [] then []
    else
      var p := ranked[|ranked| - 1];
      Fitting(ranked[..|ranked| - 1], load, cost) + if Fits(p, load, cost) then [p.ID] else []
  }

  ghost function FirstR(ids: seq<Id>, r: nat): seq<Id> {
    if |ids| <= r then ids else ids[..r]
  }

  /** Who is served: walk the ranking, skip what does not fit, stop after r. */
  function Served(ranked: seq<Probe>, load: Loads, cost: real, r: nat): (ids: seq<Id>)
    ensures |ids| <= r
  {
    if ranked == [] then []
    else
      var ids := Served(ranked[..|ranked| - 1], load, cost, r);
      var p := ranked[|ranked| - 1];
      if |ids| < r && Fits(p, load, cost) then ids + [p.ID] else ids
  }

  lemma {:induction false} ServedIsFirstR(ranked: seq<Probe>, load: Loads, cost: real, r: nat)
    ensures Served(ranked, load, cost, r) == FirstR(Fitting(ranked, load, cost), r)
  {
    if ranked != [] {
      ServedIsFirstR(ranked[..|ranked| - 1], load, cost, r);
    }
  }

  lemma {:induction false} ServedAreRanked(ranked: seq<Probe>, load: Loads, cost: real, r: nat)
    ensures forall id :: id in Served(ranked, load, cost, r) ==> exists j :: 0 <= j < |ranked| && ranked[j].ID == id
  {
    if ranked != [] {
      var init := ranked[..|ranked| - 1];
      ServedAreRanked(init, load, cost, r);
      forall id | id in Served(init, load, cost, r)
        ensures exists j :: 0 <= j < |ranked| && ranked[j].ID == id
      {
        var j :| 0 <= j < |init| && init[j].ID == id;
        assert ranked[j].ID == id;
      }
      assert ranked[|ranked| - 1].ID == ranked[|ranked| - 1].ID;
    }
  }

  lemma {:induction false} ServedStays(ranked: seq<Probe>, i: nat, load: Loads, cost: real, r: nat)
    requires i <= |ranked| && |Served(ranked[..i], load, cost, r)| >= r
    ensures Served(ranked, load, cost, r) == Served(ranked[..i], load, cost, r)
  {
    if i == |ranked| {
      assert ranked[..i] == ranked;
    } else {
      var n := |ranked| - 1;
      assert ranked[..n][..i] == ranked[..i];
      ServedStays(ranked[..n], i, load, cost, r);
    }
  }

  method Hand(c: CheckSpec, ranked: seq<Probe>, r: nat, load0: Loads, out0: map<Id, seq<CheckSpec>>)
    returns (load: Loads, out: map<Id, seq<CheckSpec>>)
    requires load0.Keys == out0.Keys
    requires forall p :: p in ranked ==> p.ID in load0
    ensures load.Keys == out.Keys == load0.Keys
    ensures DistinctIds(ranked) ==> Plan(load, out) == Give(Plan(load0, out0), c, Elements(Served(ranked, load0, CheckCost(c), r)))
  {
    var cost := CheckCost(c);
    load, out := load0, out0;
    var given := 0;
    ghost var to: seq<Id> := [];
    for i := 0 to |ranked|
      invariant load.Keys == out.Keys == load0.Keys
      invariant Handed(c, ranked, i, r, load0, out0, load, out, to, given)
    {
      var p := ranked[i];
      if given >= r {
        HandingDone(c, ranked, i, r, load0, out0, load, out, to, given);
        break;
      }
      HandingStep(c, ranked, i, r, load0, out0, load, out, to, given);
      if p.Capacity > 0 && load[p.ID] + cost > p.Capacity as real {
        continue;
      }
      out := out[p.ID := out[p.ID] + [c]];
      load := load[p.ID := load[p.ID] + cost];
      given := given + 1;
      to := to + [p.ID];
    }
    HandedAll(c, ranked, r, load0, out0, load, out, to, given);
  }

  /** Where IDs are distinct, the first i of the ranking have been walked and `to` served. */
  ghost predicate Handed(c: CheckSpec, ranked: seq<Probe>, i: nat, r: nat, load0: Loads, out0: map<Id, seq<CheckSpec>>,
                         load: Loads, out: map<Id, seq<CheckSpec>>, to: seq<Id>, given: int)
    requires i <= |ranked| && load0.Keys == out0.Keys
  {
    DistinctIds(ranked) ==>
      && to == Served(ranked[..i], load0, CheckCost(c), r)
      && given == |to|
      && GaveTo(c, to, load0, out0, load, out)
  }

  lemma HandedAll(c: CheckSpec, ranked: seq<Probe>, r: nat, load0: Loads, out0: map<Id, seq<CheckSpec>>,
                  load: Loads, out: map<Id, seq<CheckSpec>>, to: seq<Id>, given: int)
    requires load0.Keys == out0.Keys
    requires Handed(c, ranked, |ranked|, r, load0, out0, load, out, to, given)
    ensures DistinctIds(ranked) ==>
      Plan(load, out) == Give(Plan(load0, out0), c, Elements(Served(ranked, load0, CheckCost(c), r)))
  {
    if DistinctIds(ranked) {
      assert ranked[..|ranked|] == ranked;
      GaveToIsGive(c, to, load0, out0, load, out);
    }
  }

  lemma HandingDone(c: CheckSpec, ranked: seq<Probe>, i: nat, r: nat, load0: Loads, out0: map<Id, seq<CheckSpec>>,
                    load: Loads, out: map<Id, seq<CheckSpec>>, to: seq<Id>, given: int)
    requires i <= |ranked| && load0.Keys == out0.Keys && given >= r
    requires Handed(c, ranked, i, r, load0, out0, load, out, to, given)
    ensures Handed(c, ranked, |ranked|, r, load0, out0, load, out, to, given)
  {
    if DistinctIds(ranked) {
      ServedStays(ranked, i, load0, CheckCost(c), r);
      assert ranked[..|ranked|] == ranked;
    }
  }

  /** One more probe is skipped, or served; its load is still what it was. */
  lemma HandingStep(c: CheckSpec, ranked: seq<Probe>, i: nat, r: nat, load0: Loads, out0: map<Id, seq<CheckSpec>>,
                    load: Loads, out: map<Id, seq<CheckSpec>>, to: seq<Id>, given: int)
    requires i < |ranked| && load0.Keys == out0.Keys == load.Keys == out.Keys && given < r
    requires ranked[i].ID in load0
    requires Handed(c, ranked, i, r, load0, out0, load, out, to, given)
    ensures var p, cost := ranked[i], CheckCost(c);
      if p.Capacity > 0 && load[p.ID] + cost > p.Capacity as real
      then Handed(c, ranked, i + 1, r, load0, out0, load, out, to, given)
      else Handed(c, ranked, i + 1, r, load0, out0,
                  load[p.ID := load[p.ID] + cost], out[p.ID := out[p.ID] + [c]], to + [p.ID], given + 1)
  {
    if DistinctIds(ranked) {
      var p := ranked[i];
      assert ranked[..i + 1][..i] == ranked[..i];
      ServedAreRanked(ranked[..i], load0, CheckCost(c), r);
      assert p.ID !in to;
      assert load[p.ID] == load0[p.ID] && out[p.ID] == out0[p.ID];
      GaveOneMore(c, to, load0, out0, load, out, p.ID);
    }
  }

  lemma GaveOneMore(c: CheckSpec, to: seq<Id>, load0: Loads, out0: map<Id, seq<CheckSpec>>,
                    load: Loads, out: map<Id, seq<CheckSpec>>, id: Id)
    requires load0.Keys == out0.Keys && GaveTo(c, to, load0, out0, load, out) && id in load0 && id !in to
    ensures GaveTo(c, to + [id], load0, out0, load[id := load[id] + CheckCost(c)], out[id := out[id] + [c]])
  {
  }

  /** Exactly the probes in `to` have received c. */
  ghost predicate GaveTo(c: CheckSpec, to: seq<Id>, load0: Loads, out0: map<Id, seq<CheckSpec>>,
                         load: Loads, out: map<Id, seq<CheckSpec>>)
    requires load0.Keys == out0.Keys
  {
    && load.Keys == out.Keys == load0.Keys
    && forall q :: q in load0 ==>
      && load[q] == (if q in to then load0[q] + CheckCost(c) else load0[q])
      && out[q] == (if q in to then out0[q] + [c] else out0[q])
  }

  lemma GaveToIsGive(c: CheckSpec, to: seq<Id>, load0: Loads, out0: map<Id, seq<CheckSpec>>,
                     load: Loads, out: map<Id, seq<CheckSpec>>)
    requires load0.Keys == out0.Keys && GaveTo(c, to, load0, out0, load, out)
    ensures Plan(load, out) == Give(Plan(load0, out0), c, Elements(to))
  {
    var given := Give(Plan(load0, out0), c, Elements(to));
    assert load == given.load;
    assert out == given.out;
  }

  lemma RankedProbes(c: CheckSpec, probes: seq<Probe>, load: Loads, candidates: seq<Probe>, ranked: seq<Probe>)
    requires DistinctIds(candidates)
    requires forall p :: p in candidates <==> p in probes && Supports(p, c.Type)
    requires multiset(ranked) == multiset(candidates) && Sorted(ByProbeLoad(load), ranked)
    ensures forall p :: p in ranked <==> p in probes && Supports(p, c.Type)
    ensures DistinctIds(ranked)
    ensures forall i, j :: 0 <= i < j < |ranked| ==> ByLoad(load)(ranked[i].ID, ranked[j].ID)
  {
    assert Distinct(candidates);
    SameElements(ranked, candidates);
    forall p
      ensures p in ranked <==> p in candidates
    {
      assert p in ranked <==> p in Elements(ranked);
      assert p in candidates <==> p in Elements(candidates);
    }
    ByLoadIsStrictTotal(load);
    forall i, j | 0 <= i < j < |ranked|
      ensures ranked[i].ID != ranked[j].ID && ByLoad(load)(ranked[i].ID, ranked[j].ID)
    {
      assert ranked[i] in candidates && ranked[j] in candidates;
      assert !ByProbeLoad(load)(ranked[j], ranked[i]);
    }
  }

  lemma {:induction false} FittingOrdered(ranked: seq<Probe>, load: Loads, cost: real)
    requires forall i, j :: 0 <= i < j < |ranked| ==> ByLoad(load)(ranked[i].ID, ranked[j].ID)
    ensures Ordered(ByLoad(load), Fitting(ranked, load, cost))
    ensures forall id :: id in Fitting(ranked, load, cost) <==> exists p :: p in ranked && p.ID == id && Fits(p, load, cost)
  {
    if ranked != [] {
      var n := |ranked| - 1;
      var init, p := ranked[..n], ranked[n];
      assert ranked == init + [p];
      FittingOrdered(init, load, cost);
      var ids := Fitting(init, load, cost);
      forall i | 0 <= i < |ids|
        ensures ByLoad(load)(ids[i], p.ID)
      {
        assert ids[i] in ids;
        var q :| q in init && q.ID == ids[i];
        var j :| 0 <= j < |init| && init[j] == q;
        assert ranked[j] == q;
      }
    }
  }

  lemma ChosenIsFirst(c: CheckSpec, probes: seq<Probe>, r: nat, load: Loads, ranked: seq<Probe>)
    requires forall p :: p in ranked <==> p in probes && Supports(p, c.Type)
    requires forall i, j :: 0 <= i < j < |ranked| ==> ByLoad(load)(ranked[i].ID, ranked[j].ID)
    ensures Elements(Served(ranked, load, CheckCost(c), r)) == Chosen(c, Elements(probes), load, r)
  {
    ServedIsFirstR(ranked, load, CheckCost(c), r);
    var cost := CheckCost(c);
    var ids := Fitting(ranked, load, cost);
    var before := ByLoad(load);
    FittingOrdered(ranked, load, cost);
    ByLoadIsStrictTotal(load);
    EligibleIsFitting(c, probes, load, ranked, ids);
    TopOfOrderedCapped(before, ids, r);
    assert FirstR(ids, r) == ids[..Min(r, |ids|)];
  }

  lemma EligibleIsFitting(c: CheckSpec, probes: seq<Probe>, load: Loads, ranked: seq<Probe>, ids: seq<Id>)
    requires forall p :: p in ranked <==> p in probes && Supports(p, c.Type)
    requires forall id :: id in ids <==> exists p :: p in ranked && p.ID == id && Fits(p, load, CheckCost(c))
    ensures Elements(ids) == Eligible(c, Elements(probes), load)
  {
    forall id
      ensures id in Elements(ids) <==> id in Eligible(c, Elements(probes), load)
    {
    }
  }

  // ---- properties of the assignment ----

  ghost predicate HasRoom(p: Probe, c: CheckSpec, load: Loads) {
    p.Capacity <= 0 || LoadOf(load, p.ID) + CheckCost(c) <= p.Capacity as real
  }

  /** All r that get the check carry less than id does; of equal loads the smaller ID is ahead. */
  ghost predicate Behind(id: Id, to: set<Id>, load: Loads, r: nat) {
    |to| == r && forall q :: q in to ==>
      LoadOf(load, q) < LoadOf(load, id) || (LoadOf(load, q) == LoadOf(load, id) && Less(q, id))
  }

  /** A check goes to probes that can run it and have room, and passes one over only if r others are ahead of it. */
  lemma LightestAreChosen(c: CheckSpec, probes: set<Probe>, load: Loads, r: nat, p: Probe)
    requires DistinctProbes(probes) && p in probes
    ensures var to := Chosen(c, probes, load, r);
      && |to| <= r
      && (p.ID in to ==> CanRun(p, c) && HasRoom(p, c, load))
      && (CanRun(p, c) && HasRoom(p, c, load) && p.ID !in to ==> Behind(p.ID, to, load, r))
  {
    ByLoadIsStrictTotal(load);
    var before, E := ByLoad(load), Eligible(c, probes, load);
    TopSize(before, E, r);
    if p.ID in E && p.ID !in Top(before, E, r) {
      SubsetSize(Ahead(before, E, p.ID) + {p.ID}, E);
      assert p.ID !in Ahead(before, E, p.ID);
      forall q | q in Top(before, E, r)
        ensures before(q, p.ID)
      {
        if before(p.ID, q) {
          RankInjective(before, E, p.ID, q);
        }
      }
    }
  }

  function SumCost(cs: seq<CheckSpec>): real {
    if cs == [] then 0.0 else SumCost(cs[..|cs| - 1]) + CheckCost(cs[|cs| - 1])
  }

  ghost function RunsOn(plan: Plan, c: CheckSpec): set<Id> {
    set p | p in plan.out && c in plan.out[p]
  }

  /** Loads are the cost of what was handed out, and no capped probe is over its cap. */
  lemma {:induction false} WithinCapacity(checks: seq<CheckSpec>, probes: set<Probe>, r: nat)
    requires DistinctProbes(probes)
    ensures var plan := PlaceAll(checks, probes, r);
      forall p :: p in probes ==>
        && plan.load[p.ID] == SumCost(plan.out[p.ID])
        && (p.Capacity > 0 ==> SumCost(plan.out[p.ID]) <= p.Capacity as real)
  {
    if checks != [] {
      var n := |checks| - 1;
      var c := checks[n];
      WithinCapacity(checks[..n], probes, r);
      var before, plan := PlaceAll(checks[..n], probes, r), PlaceAll(checks, probes, r);
      var to := Chosen(c, probes, before.load, r);
      forall p | p in probes
        ensures plan.load[p.ID] == SumCost(plan.out[p.ID])
        ensures p.Capacity > 0 ==> plan.load[p.ID] <= p.Capacity as real
      {
        assert p.ID in before.load;
        if p.ID in to {
          var q :| q in probes && q.ID == p.ID && Fits(q, before.load, CheckCost(c));
          assert (before.out[p.ID] + [c])[..|before.out[p.ID]|] == before.out[p.ID];
        } else {
          assert plan.out[p.ID] == before.out[p.ID];
        }
      }
    }
  }

  lemma GivenTo(plan: Plan, c: CheckSpec, to: set<Id>, p: Id)
    requires p in plan.load && p in plan.out
    ensures var after := Give(plan, c, to);
      && p in after.load && p in after.out
      && after.load[p] >= plan.load[p]
      && after.out[p] == if p in to then plan.out[p] + [c] else plan.out[p]
  {
  }

  lemma ChosenSupport(c: CheckSpec, probes: set<Probe>, load: Loads, r: nat, p: Probe)
    requires DistinctProbes(probes) && p in probes && p.ID in Chosen(c, probes, load, r)
    ensures Supports(p, c.Type)
  {
  }

  /** Each probe runs only checks it was offered, supports and was given once. */
  lemma {:induction false} OnlySupported(checks: seq<CheckSpec>, probes: set<Probe>, r: nat, p: Probe)
    requires DistinctProbes(probes) && Distinct(checks) && p in probes
    ensures var given := PlaceAll(checks, probes, r).out[p.ID];
      && Distinct(given)
      && forall c :: c in given ==> c in checks && (p.SupportedTypes == {} || c.Type in p.SupportedTypes)
  {
    if checks == [] {
    } else {
      var n := |checks| - 1;
      var c := checks[n];
      assert checks == checks[..n] + [c] && c !in checks[..n];
      OnlySupported(checks[..n], probes, r, p);
      var before := PlaceAll(checks[..n], probes, r);
      var to := Chosen(c, probes, before.load, r);
      GivenTo(before, c, to, p.ID);
      if p.ID in to {
        ChosenSupport(c, probes, before.load, r, p);
      }
    }
  }

  /** What the last check of a list changes for one probe. */
  lemma LastPlaced(checks: seq<CheckSpec>, probes: set<Probe>, r: nat, p: Id)
    requires checks != [] && p in IdSet(probes)
    ensures var c, before := checks[|checks| - 1], PlaceAll(checks[..|checks| - 1], probes, r);
      && PlaceAll(checks, probes, r).out[p] ==
           (if p in Chosen(c, probes, before.load, r) then before.out[p] + [c] else before.out[p])
      && PlaceAll(checks, probes, r).load[p] >= before.load[p]
  {
    var before := PlaceAll(checks[..|checks| - 1], probes, r);
    GivenTo(before, checks[|checks| - 1], Chosen(checks[|checks| - 1], probes, before.load, r), p);
  }

  ghost predicate Given(checks: seq<CheckSpec>, probes: set<Probe>, r: nat, p: Id, c: CheckSpec) {
    p in IdSet(probes) && c in PlaceAll(checks, probes, r).out[p]
  }

  lemma LastIsOther(checks: seq<CheckSpec>, probes: set<Probe>, r: nat, p: Id, c: CheckSpec)
    requires checks != [] && p in IdSet(probes) && c != checks[|checks| - 1]
    ensures Given(checks, probes, r, p, c) <==> Given(checks[..|checks| - 1], probes, r, p, c)
    ensures PlaceAll(checks[..|checks| - 1], probes, r).load[p] <= PlaceAll(checks, probes, r).load[p]
  {
    LastPlaced(checks, probes, r, p);
  }

  /** Placing more checks lightens no load and leaves every earlier check where it is. */
  lemma {:induction false} EarlierStays(checks: seq<CheckSpec>, i: nat, probes: set<Probe>, r: nat, p: Id, c: CheckSpec)
    requires i <= |checks| && p in IdSet(probes) && c !in checks[i..]
    ensures Given(checks[..i], probes, r, p, c) <==> Given(checks, probes, r, p, c)
    ensures PlaceAll(checks[..i], probes, r).load[p] <= PlaceAll(checks, probes, r).load[p]
  {
    if i == |checks| {
      assert checks[..i] == checks;
    } else {
      var init := checks[..|checks| - 1];
      assert checks[i..] == init[i..] + [checks[|checks| - 1]];
      assert init[..i] == checks[..i];
      EarlierStays(init, i, probes, r, p, c);
      LastIsOther(checks, probes, r, p, c);
    }
  }

  lemma NewlyPlaced(checks: seq<CheckSpec>, probes: set<Probe>, r: nat, p: Probe)
    requires checks != [] && Distinct(checks) && DistinctProbes(probes) && p in probes
    ensures var c, before := checks[|checks| - 1], PlaceAll(checks[..|checks| - 1], probes, r);
      && (Given(checks, probes, r, p.ID, c) <==> p.ID in Chosen(c, probes, before.load, r))
      && before.load[p.ID] <= PlaceAll(checks, probes, r).load[p.ID]
  {
    var init, c := checks[..|checks| - 1], checks[|checks| - 1];
    assert c !in init;
    OnlySupported(init, probes, r, p);
    LastPlaced(checks, probes, r, p.ID);
  }

  /** What happened when the i-th check was placed, read off the final plan. */
  lemma PlacedOnChosen(checks: seq<CheckSpec>, i: nat, probes: set<Probe>, r: nat, p: Probe)
    requires i < |checks| && Distinct(checks) && DistinctProbes(probes) && p in probes
    ensures Given(checks, probes, r, p.ID, checks[i]) <==>
      p.ID in Chosen(checks[i], probes, PlaceAll(checks[..i], probes, r).load, r)
    ensures PlaceAll(checks[..i], probes, r).load[p.ID] <= PlaceAll(checks, probes, r).load[p.ID]
  {
    assert checks[..i + 1][..i] == checks[..i];
    assert checks[i] !in checks[i + 1..];
    NewlyPlaced(checks[..i + 1], probes, r, p);
    EarlierStays(checks, i + 1, probes, r, p.ID, checks[i]);
  }

  lemma RunsOnChosen(checks: seq<CheckSpec>, i: nat, probes: set<Probe>, r: nat)
    requires i < |checks| && Distinct(checks) && DistinctProbes(probes)
    ensures RunsOn(PlaceAll(checks, probes, r), checks[i]) ==
      Chosen(checks[i], probes, PlaceAll(checks[..i], probes, r).load, r)
  {
    forall id
      ensures id in RunsOn(PlaceAll(checks, probes, r), checks[i]) <==>
        id in Chosen(checks[i], probes, PlaceAll(checks[..i], probes, r).load, r)
    {
      if p :| p in probes && p.ID == id {
        PlacedOnChosen(checks, i, probes, r, p);
        assert id in RunsOn(PlaceAll(checks, probes, r), checks[i]) <==> Given(checks, probes, r, id, checks[i]);
      }
    }
  }

  /**
   A check runs on at most r probes, and on fewer only if every other probe that supports it
   is capped and would overflow even at its final load.
   */
  lemma RedundantAndMaximal(checks: seq<CheckSpec>, probes: set<Probe>, r: nat, c: CheckSpec)
    requires DistinctProbes(probes) && Distinct(checks) && c in checks
    ensures var plan := PlaceAll(checks, probes, r);
      && |RunsOn(plan, c)| <= r
      && (|RunsOn(plan, c)| < r ==> forall q :: q in probes && Supports(q, c.Type) && q.ID !in RunsOn(plan, c) ==>
            q.Capacity > 0 && plan.load[q.ID] + CheckCost(c) > q.Capacity as real)
  {
    var i :| 0 <= i < |checks| && checks[i] == c;
    var plan, before := PlaceAll(checks, probes, r), PlaceAll(checks[..i], probes, r);
    RunsOnChosen(checks, i, probes, r);
    ByLoadIsStrictTotal(before.load);
    var E := Eligible(c, probes, before.load);
    TopSize(ByLoad(before.load), E, r);
    if |RunsOn(plan, c)| < r {
      SubsetSize(RunsOn(plan, c), E);
      forall q | q in probes && Supports(q, c.Type) && q.ID !in RunsOn(plan, c)
        ensures q.Capacity > 0 && plan.load[q.ID] + CheckCost(c) > q.Capacity as real
      {
        PlacedOnChosen(checks, i, probes, r, q);
        assert q.ID !in E;
        assert q.ID in before.load;
      }
    }
  }

  /** No declared types is support for every type. */
  ghost predicate CanRun(q: Probe, c: CheckSpec) {
    q.SupportedTypes == {} || c.Type in q.SupportedTypes
  }

  /**
   Check c runs on at most n probes, all of which can run it, and on fewer only if every other probe that can
   run it is capped and would overflow by it.
   */
  ghost predicate FullyPlaced(out: map<Id, seq<CheckSpec>>, probes: seq<Probe>, c: CheckSpec, n: int) {
    var runs := set id | id in out && c in out[id];
    && |runs| <= n
    && (forall q :: q in probes && q.ID in runs ==> CanRun(q, c))
    && (|runs| < n ==> forall q :: q in probes && CanRun(q, c) && q.ID !in runs ==>
          q.Capacity > 0 && q.ID in out && SumCost(out[q.ID]) + CheckCost(c) > q.Capacity as real)
  }

  ghost predicate KeepsCapacity(out: map<Id, seq<CheckSpec>>, probes: seq<Probe>) {
    forall q :: q in probes && q.Capacity > 0 ==> q.ID in out && SumCost(out[q.ID]) <= q.Capacity as real
  }

  lemma CheckIsFullyPlaced(ordered: seq<CheckSpec>, probes: seq<Probe>, r: nat, c: CheckSpec)
    requires DistinctProbes(Elements(probes)) && Distinct(ordered) && c in ordered
    ensures FullyPlaced(PlaceAll(ordered, Elements(probes), r).out, probes, c, r)
  {
    var P := Elements(probes);
    var plan := PlaceAll(ordered, P, r);
    RedundantAndMaximal(ordered, P, r, c);
    assert RunsOn(plan, c) == set id | id in plan.out && c in plan.out[id];
    forall q | q in probes
      ensures PlacedOrFull(plan, c, q, |RunsOn(plan, c)| < r)
    {
      ProbeIsPlacedOrFull(ordered, P, r, c, q);
    }
  }

  /** If q runs c it can; where c lacks probes, q runs it, cannot, or would overflow by it. */
  ghost predicate PlacedOrFull(plan: Plan, c: CheckSpec, q: Probe, lacking: bool) {
    && q.ID in plan.out
    && (c in plan.out[q.ID] ==> CanRun(q, c))
    && (lacking && CanRun(q, c) && c !in plan.out[q.ID] ==>
          q.Capacity > 0 && SumCost(plan.out[q.ID]) + CheckCost(c) > q.Capacity as real)
  }

  lemma ProbeIsPlacedOrFull(ordered: seq<CheckSpec>, P: set<Probe>, r: nat, c: CheckSpec, q: Probe)
    requires DistinctProbes(P) && Distinct(ordered) && c in ordered && q in P
    ensures var plan := PlaceAll(ordered, P, r);
      PlacedOrFull(plan, c, q, |RunsOn(plan, c)| < r)
  {
    var plan := PlaceAll(ordered, P, r);
    assert q.ID in IdSet(P);
    OnlySupported(ordered, P, r, q);
    WithinCapacity(ordered, P, r);
    RedundantAndMaximal(ordered, P, r, c);
    assert q.ID in RunsOn(plan, c) <==> c in plan.out[q.ID];
  }

  lemma AssignedIsFull(checks: seq<CheckSpec>, ordered: seq<CheckSpec>, probes: seq<Probe>, r: nat, out: map<Id, seq<CheckSpec>>)
    requires DistinctIds(probes) && Distinct(checks) && IsOrdering(ordered, checks)
    requires out == PlaceAll(ordered, Elements(probes), r).out
    ensures KeepsCapacity(out, probes)
    ensures forall c :: c in checks ==> FullyPlaced(out, probes, c, r)
  {
    SameElements(ordered, checks);
    assert DistinctProbes(Elements(probes));
    WithinCapacity(ordered, Elements(probes), r);
    forall q | q in probes
      ensures q in Elements(probes) && q.ID in out
    {
      assert q.ID in IdSet(Elements(probes));
    }
    forall c | c in checks
      ensures FullyPlaced(out, probes, c, r)
    {
      assert c in Elements(ordered);
      CheckIsFullyPlaced(ordered, probes, r, c);
    }
  }

  /** An uncapped probe that supports everything offered. */
  ghost predicate Unrestricted(p: Probe, checks: seq<CheckSpec>) {
    p.Capacity <= 0 && forall c :: c in checks ==> p.SupportedTypes == {} || c.Type in p.SupportedTypes
  }

  lemma LighterIsServedFirst(c: CheckSpec, probes: set<Probe>, load: Loads, r: nat, p: Probe, q: Probe)
    requires q in probes && Supports(q, c.Type) && q.Capacity <= 0
    requires p.ID in Chosen(c, probes, load, r) && q.ID !in Chosen(c, probes, load, r)
    ensures LoadOf(load, p.ID) <= LoadOf(load, q.ID)
  {
    ByLoadIsStrictTotal(load);
    var E := Eligible(c, probes, load);
    assert q.ID in E;
    if Lighter(load, q.ID, p.ID) {
      RankInjective(ByLoad(load), E, q.ID, p.ID);
    }
  }

  /**
   Even spread: two unrestricted probes end within one check of each other, whatever the
   other probes, capacities and redundancy.
   */
  lemma {:induction false} Balanced(checks: seq<CheckSpec>, probes: set<Probe>, r: nat, p: Probe, q: Probe, largest: real)
    requires p in probes && q in probes && Unrestricted(p, checks) && Unrestricted(q, checks)
    requires largest >= 0.0 && forall c :: c in checks ==> CheckCost(c) <= largest
    ensures var load := PlaceAll(checks, probes, r).load;
      -largest <= load[p.ID] - load[q.ID] <= largest
  {
    if checks != [] {
      var n := |checks| - 1;
      var c := checks[n];
      assert checks == checks[..n] + [c];
      Balanced(checks[..n], probes, r, p, q, largest);
      var before := PlaceAll(checks[..n], probes, r);
      var to := Chosen(c, probes, before.load, r);
      assert p.ID in before.load && q.ID in before.load;
      assert c in checks;
      if p.ID in to && q.ID !in to {
        LighterIsServedFirst(c, probes, before.load, r, p, q);
      } else if q.ID in to && p.ID !in to {
        LighterIsServedFirst(c, probes, before.load, r, q, p);
      }
    }
  }

  /** With distinct IDs the assignment depends neither on the order of the checks nor of the probes. */
  lemma OrderFree(a: seq<CheckSpec>, b: seq<CheckSpec>, oa: seq<CheckSpec>, ob: seq<CheckSpec>,
                  ps: seq<Probe>, qs: seq<Probe>, r: nat)
    requires multiset(a) == multiset(b) && multiset(ps) == multiset(qs)
    requires forall i, j :: 0 <= i < j < |a| ==> a[i].ID != a[j].ID
    requires IsOrdering(oa, a) && IsOrdering(ob, b)
    ensures PlaceAll(oa, Elements(ps), r) == PlaceAll(ob, Elements(qs), r)
  {
    SameElements(ps, qs);
    SortedById(oa, a);
    assert multiset(ob) == multiset(a);
    SortedById(ob, a);
    LessIsStrictTotal();
    SameIds(oa, ob);
  }

  lemma SortedById(o: seq<CheckSpec>, a: seq<CheckSpec>)
    requires multiset(o) == multiset(a) && Sorted(ByCheckId(), o)
    requires forall i, j :: 0 <= i < j < |a| ==> a[i].ID != a[j].ID
    ensures Elements(o) == Elements(a)
    ensures forall i, j :: 0 <= i < j < |o| ==> Less(o[i].ID, o[j].ID)
  {
    assert Distinct(a);
    SameElements(o, a);
    LessIsStrictTotal();
    forall i, j | 0 <= i < j < |o|
      ensures Less(o[i].ID, o[j].ID)
    {
      assert o[i] in Elements(a) && o[j] in Elements(a);
      assert !ByCheckId()(o[j], o[i]);
    }
  }

  lemma {:induction false} SameIds(a: seq<CheckSpec>, b: seq<CheckSpec>)
    requires Elements(a) == Elements(b)
    requires forall i, j :: 0 <= i < j < |a| ==> Less(a[i].ID, a[j].ID)
    requires forall i, j :: 0 <= i < j < |b| ==> Less(b[i].ID, b[j].ID)
    ensures a == b
  {
    LessIsStrictTotal();
    assert Distinct(a) && Distinct(b);
    DistinctSize(a);
    DistinctSize(b);
    if a != [] {
      assert a[0] in Elements(b) && b[0] in Elements(a);
      var i :| 0 <= i < |b| && b[i] == a[0];
      var j :| 0 <= j < |a| && a[j] == b[0];
      assert a[0] == b[0];
      assert Elements(a[1..]) == Elements(a) - {a[0]};
      assert Elements(b[1..]) == Elements(b) - {b[0]};
      SameIds(a[1..], b[1..]);
    }
  }
}
