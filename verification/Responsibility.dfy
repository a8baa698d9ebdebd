/**
 Who fires an alert rule: rendezvous hashing over hub IDs (hub/alert/responsibility.go),
 and the browser's choice of the hubs a destination is sealed to (web/src/identity.ts).
 */
module Responsibility {
  import opened Ids
  import opened Ranking
  import opened Sorting

  /** The leading 64 bits of SHA-256(hubID|key), kept abstract. */
  type Hash = (Id, string) -> nat

  /** Score descending, ties to the larger ID. */
  predicate Outranks(score: Hash, key: string, a: Id, b: Id) {
    score(a, key) > score(b, key) || (score(a, key) == score(b, key) && Less(b, a))
  }

  function ByRank(score: Hash, key: string): (Id, Id) -> bool {
    (a, b) => Outranks(score, key, a, b)
  }

  lemma ByRankIsStrictTotal(score: Hash, key: string)
    ensures StrictTotal(ByRank(score, key))
  {
    LessIsStrictTotal();
  }

  /** w is the candidate every other one ranks behind. */
  ghost predicate Wins(score: Hash, key: string, candidates: set<Id>, w: Id) {
    w in candidates && forall c :: c in candidates && c != w ==> Outranks(score, key, w, c)
  }

  /** Exactly one candidate is responsible, whatever the set. */
  lemma ExactlyOneWinner(score: Hash, key: string, candidates: set<Id>)
    requires candidates != {}
    ensures exists w :: Wins(score, key, candidates, w)
    ensures forall v, w :: Wins(score, key, candidates, v) && Wins(score, key, candidates, w) ==> v == w
  {
    ByRankIsStrictTotal(score, key);
    var w := HasFirst(ByRank(score, key), candidates);
    assert Wins(score, key, candidates, w);
    assert forall x, y :: x != y ==> !(ByRank(score, key)(x, y) && ByRank(score, key)(y, x));
    forall x, y | Wins(score, key, candidates, x) && Wins(score, key, candidates, y)
      ensures x == y
    {
      assert x != y ==> !(ByRank(score, key)(x, y) && ByRank(score, key)(y, x));
    }
  }

  /** Self scores higher than every other hub listed; of equal scores the larger ID is ahead. */
  ghost predicate BestOf(score: Hash, key: string, list: seq<Id>, self: Id) {
    forall p :: p in list && p != self ==>
      score(self, key) > score(p, key) || (score(self, key) == score(p, key) && Less(p, self))
  }

  lemma WinnerIsBest(score: Hash, key: string, list: seq<Id>, self: Id)
    ensures Wins(score, key, Elements(list) + {self}, self) <==> BestOf(score, key, list, self)
    ensures Wins(score, key, Elements(list), self) <==> self in list && BestOf(score, key, list, self)
  {
    assert forall p :: p in list <==> p in Elements(list);
  }

  method Responsible(score: Hash, self: Id, peers: seq<Id>, key: string) returns (r: bool)
    ensures r <==> Wins(score, key, Elements(peers) + {self}, self)
    ensures r <==> BestOf(score, key, peers, self)
  {
    ByRankIsStrictTotal(score, key);
    var best, bestScore := self, score(self, key);
    for i := 0 to |peers|
      invariant bestScore == score(best, key)
      invariant Wins(score, key, Elements(peers[..i]) + {self}, best)
    {
      var h := peers[i];
      NextCandidate(score, key, peers, i, {self}, best);
      if h == self {
        continue;
      }
      var s := score(h, key);
      if s > bestScore || (s == bestScore && Less(best, h)) {
        best, bestScore := h, s;
      }
    }
    assert peers[..|peers|] == peers;
    WinnerIsBest(score, key, peers, self);
    if Wins(score, key, Elements(peers) + {self}, self) {
      ExactlyOneWinner(score, key, Elements(peers) + {self});
    }
    return best == self;
  }

  /** The incumbent meets one more candidate. */
  lemma NextCandidate(score: Hash, key: string, list: seq<Id>, i: nat, base: set<Id>, best: Id)
    requires i < |list| && StrictTotal(ByRank(score, key))
    requires Wins(score, key, Elements(list[..i]) + base, best)
    ensures Wins(score, key, Elements(list[..i + 1]) + base,
                 if Outranks(score, key, list[i], best) then list[i] else best)
  {
    var before := ByRank(score, key);
    var C := Elements(list[..i]) + base;
    assert list[..i + 1] == list[..i] + [list[i]];
    assert Elements(list[..i + 1]) + base == C + {list[i]};
    if Outranks(score, key, list[i], best) {
      forall c | c in C && c != list[i]
        ensures Outranks(score, key, list[i], c)
      {
        assert c != best ==> before(best, c);
        assert before(list[i], best);
      }
    } else if list[i] != best {
      assert !before(list[i], best);
      assert before(best, list[i]);
    }
  }

  method ResponsibleAmong(score: Hash, self: Id, candidates: seq<Id>, key: string) returns (r: bool)
    ensures "" !in candidates ==> (r <==> Wins(score, key, Elements(candidates), self))
    ensures "" !in candidates ==> (r <==> self in candidates && BestOf(score, key, candidates, self))
  {
    ByRankIsStrictTotal(score, key);
    var inSet := false;
    var best, bestScore := "", 0;
    for i := 0 to |candidates|
      invariant inSet <==> self in candidates[..i]
      invariant "" !in candidates && i > 0 ==>
        best != "" && bestScore == score(best, key) && Wins(score, key, Elements(candidates[..i]) + {}, best)
      invariant i == 0 ==> best == ""
    {
      var h := candidates[i];
      assert candidates[..i + 1] == candidates[..i] + [h];
      if h == self {
        inSet := true;
      }
      if "" !in candidates && i > 0 {
        NextCandidate(score, key, candidates, i, {}, best);
      }
      var s := score(h, key);
      if best == "" || s > bestScore || (s == bestScore && Less(best, h)) {
        best, bestScore := h, s;
      }
    }
    assert candidates[..|candidates|] == candidates;
    WinnerIsBest(score, key, candidates, self);
    if "" !in candidates && candidates != [] {
      assert Elements(candidates) + {} == Elements(candidates);
      assert candidates[0] in Elements(candidates);
      ExactlyOneWinner(score, key, Elements(candidates));
    }
    return inSet && best == self;
  }

  // ---- the browser ----

  const ALERT_RECIPIENTS: nat := 3

  datatype HubKey = HubKey(hubId: Id, encPubKey: string)

  function ByHubRank(score: Hash, key: string): (HubKey, HubKey) -> bool {
    (a: HubKey, b: HubKey) => Outranks(score, key, a.hubId, b.hubId)
  }

  ghost predicate IsTopK(score: Hash, hubs: seq<HubKey>, key: string, k: nat, top: seq<HubKey>) {
    exists ranked ::
      && multiset(ranked) == multiset(hubs)
      && Sorted(ByHubRank(score, key), ranked)
      && top == ranked[..Min(k, |ranked|)]
  }

  method TopKHubs(score: Hash, hubs: seq<HubKey>, key: string, k: nat) returns (top: seq<HubKey>)
    ensures IsTopK(score, hubs, key, k, top)
  {
    ByRankIsStrictTotal(score, key);
    StrictTotalIsWeak(ByRank(score, key));
    WeakOnHubs(score, key);
    var ranked := Sort(hubs, ByHubRank(score, key));
    top := if k < |ranked| then ranked[..k] else ranked;
    assert ranked[..|ranked|] == ranked;
  }

  lemma WeakOnHubs(score: Hash, key: string)
    requires StrictWeak(ByRank(score, key))
    ensures StrictWeak(ByHubRank(score, key))
  {
    var less, on := ByRank(score, key), ByHubRank(score, key);
    assert forall a, b :: on(a, b) == less(a.hubId, b.hubId);
  }

  ghost function HubIds(hubs: seq<HubKey>): seq<Id> {
    seq(|hubs|, i requires 0 <= i < |hubs| => hubs[i].hubId)
  }

  /** Hubs that published an encryption key. */
  function Sealable(hubs: seq<HubKey>): seq<HubKey> {
    if hubs == [] then []
    else
      var h := hubs[|hubs| - 1];
      Sealable(hubs[..|hubs| - 1]) + if h.encPubKey != "" then [h] else []
  }

  lemma {:induction false} SealableHas(hubs: seq<HubKey>)
    ensures forall h :: h in Sealable(hubs) <==> h in hubs && h.encPubKey != ""
  {
    if hubs != [] {
      var n := |hubs| - 1;
      SealableHas(hubs[..n]);
      assert hubs == hubs[..n] + [hubs[n]];
    }
  }

  /** id is sealed to, or three hubs that are score higher; of equal scores the larger ID is ahead. */
  ghost predicate SealedOrBeaten(score: Hash, key: string, ranked: seq<Id>, id: Id) {
    id in ranked ||
    (|ranked| == 3 && forall r :: r in ranked ==> score(r, key) > score(id, key) || (score(r, key) == score(id, key) && Less(id, r)))
  }

  /** What the recipients are, in terms of the hubs' keys and scores. */
  lemma RecipientsAre(score: Hash, hubs: seq<HubKey>, key: string, ranked: seq<Id>)
    requires Ordered(ByRank(score, key), ranked)
    requires Elements(ranked) == Top(ByRank(score, key), Elements(HubIds(Sealable(hubs))), ALERT_RECIPIENTS)
    ensures forall id :: id in ranked ==> exists h :: h in hubs && h.hubId == id && h.encPubKey != ""
    ensures forall h :: h in hubs && h.encPubKey != "" ==> SealedOrBeaten(score, key, ranked, h.hubId)
    ensures |ranked| <= 3
  {
    var before, S := ByRank(score, key), Elements(HubIds(Sealable(hubs)));
    SealableHas(hubs);
    ByRankIsStrictTotal(score, key);
    TopSize(before, S, ALERT_RECIPIENTS);
    assert Distinct(ranked);
    DistinctSize(ranked);
    forall id | id in ranked
      ensures exists h :: h in hubs && h.hubId == id && h.encPubKey != ""
    {
      assert id in Elements(ranked) && id in S;
      var i :| 0 <= i < |HubIds(Sealable(hubs))| && HubIds(Sealable(hubs))[i] == id;
      assert Sealable(hubs)[i] in Sealable(hubs);
    }
    forall h | h in hubs && h.encPubKey != ""
      ensures SealedOrBeaten(score, key, ranked, h.hubId)
    {
      var i :| 0 <= i < |Sealable(hubs)| && Sealable(hubs)[i] == h;
      assert HubIds(Sealable(hubs))[i] == h.hubId;
      BeatenByTop(score, key, S, ranked, h.hubId);
    }
  }

  lemma BeatenByTop(score: Hash, key: string, S: set<Id>, ranked: seq<Id>, id: Id)
    requires StrictTotal(ByRank(score, key)) && id in S
    requires Elements(ranked) == Top(ByRank(score, key), S, ALERT_RECIPIENTS)
    requires |ranked| == Min(ALERT_RECIPIENTS, |S|)
    ensures SealedOrBeaten(score, key, ranked, id)
  {
    var before := ByRank(score, key);
    if id !in ranked {
      assert id !in Elements(ranked);
      SubsetSize(Ahead(before, S, id) + {id}, S);
      assert id !in Ahead(before, S, id);
      forall r | r in ranked
        ensures before(r, id)
      {
        assert r in Elements(ranked) && r != id;
        if before(id, r) {
          RankInjective(before, S, id, r);
        }
      }
    }
  }

  method KeepSealable(hubs: seq<HubKey>) returns (usable: seq<HubKey>)
    ensures usable == Sealable(hubs)
  {
    usable := [];
    for i := 0 to |hubs|
      invariant usable == Sealable(hubs[..i])
    {
      assert hubs[..i + 1][..i] == hubs[..i];
      if hubs[i].encPubKey != "" {
        usable := usable + [hubs[i]];
      }
    }
    assert hubs[..|hubs|] == hubs;
  }

  /** The hubs a destination is sealed to, best first: the recipient loop of signAlertRule. */
  method ChooseRecipients(score: Hash, hubs: seq<HubKey>, ruleKey: string, deleted: bool) returns (ranked: seq<Id>)
    ensures deleted ==> ranked == []
    ensures !deleted && Distinct(HubIds(Sealable(hubs))) ==>
      && Ordered(ByRank(score, ruleKey), ranked)
      && Elements(ranked) == Top(ByRank(score, ruleKey), Elements(HubIds(Sealable(hubs))), ALERT_RECIPIENTS)
    // every recipient has a key, and every hub with a key is one or is outranked by three
    ensures !deleted && Distinct(HubIds(Sealable(hubs))) ==>
      && (forall id :: id in ranked ==> exists h :: h in hubs && h.hubId == id && h.encPubKey != "")
      && (forall h :: h in hubs && h.encPubKey != "" ==> SealedOrBeaten(score, ruleKey, ranked, h.hubId))
      && |ranked| <= 3
  {
    ranked := [];
    if deleted {
      return;
    }
    var usable := KeepSealable(hubs);
    var top := TopKHubs(score, usable, ruleKey, ALERT_RECIPIENTS);
    if Distinct(HubIds(usable)) {
      TopKHubIds(score, usable, ruleKey, ALERT_RECIPIENTS, top);
    }
    ranked := SealTo(top);
    if Distinct(HubIds(usable)) {
      RecipientsAre(score, hubs, ruleKey, ranked);
    }
  }

  method SealTo(top: seq<HubKey>) returns (ids: seq<Id>)
    ensures ids == HubIds(top)
  {
    ids := [];
    for i := 0 to |top|
      invariant ids == HubIds(top)[..i]
    {
      ids := ids + [top[i].hubId];
    }
  }

  lemma TopKHubIds(score: Hash, hubs: seq<HubKey>, key: string, k: nat, top: seq<HubKey>)
    requires Distinct(HubIds(hubs))
    requires IsTopK(score, hubs, key, k, top)
    ensures Ordered(ByRank(score, key), HubIds(top))
    ensures Elements(HubIds(top)) == Top(ByRank(score, key), Elements(HubIds(hubs)), k)
  {
    var ranked :| multiset(ranked) == multiset(hubs) && Sorted(ByHubRank(score, key), ranked) &&
      top == ranked[..Min(k, |ranked|)];
    var before, ids := ByRank(score, key), HubIds(ranked);
    ByRankIsStrictTotal(score, key);
    RankedHubs(score, hubs, key, ranked);
    TopOfOrderedCapped(before, ids, k);
    assert HubIds(top) == ids[..Min(k, |ids|)];
  }

  lemma RankedHubs(score: Hash, hubs: seq<HubKey>, key: string, ranked: seq<HubKey>)
    requires Distinct(HubIds(hubs))
    requires multiset(ranked) == multiset(hubs) && Sorted(ByHubRank(score, key), ranked)
    ensures Ordered(ByRank(score, key), HubIds(ranked))
    ensures Elements(HubIds(ranked)) == Elements(HubIds(hubs))
  {
    forall i, j | 0 <= i < j < |hubs|
      ensures hubs[i] != hubs[j]
    {
      assert HubIds(hubs)[i] != HubIds(hubs)[j];
    }
    SameElements(ranked, hubs);
    SameIds(ranked, hubs);
    SameIds(hubs, ranked);
    ByRankIsStrictTotal(score, key);
    forall i, j | 0 <= i < j < |ranked|
      ensures ByRank(score, key)(ranked[i].hubId, ranked[j].hubId)
    {
      assert ranked[i] in Elements(ranked) && ranked[j] in Elements(ranked);
      var a :| 0 <= a < |hubs| && hubs[a] == ranked[i];
      var b :| 0 <= b < |hubs| && hubs[b] == ranked[j];
      assert HubIds(hubs)[a] != HubIds(hubs)[b];
      assert !ByHubRank(score, key)(ranked[j], ranked[i]);
    }
  }

  lemma SameIds(a: seq<HubKey>, b: seq<HubKey>)
    requires Elements(a) <= Elements(b)
    ensures Elements(HubIds(a)) <= Elements(HubIds(b))
  {
    forall id | id in HubIds(a)
      ensures id in HubIds(b)
    {
      var i :| 0 <= i < |a| && HubIds(a)[i] == id;
      assert a[i] in Elements(a);
      var j :| 0 <= j < |b| && b[j] == a[i];
      assert HubIds(b)[j] == id;
    }
  }

  /**
   Browser and hubs agree: among any live hubs the responsible recipient is the first live
   one in the browser's list, so a failover walks down that list.
   */
  lemma FirstLiveRecipientWins(score: Hash, key: string, ranked: seq<Id>, live: set<Id>, i: nat)
    requires Ordered(ByRank(score, key), ranked)
    requires i < |ranked| && ranked[i] in live && forall j :: 0 <= j < i ==> ranked[j] !in live
    ensures Wins(score, key, Elements(ranked) * live, ranked[i])
    ensures forall v :: Wins(score, key, Elements(ranked) * live, v) ==> v == ranked[i]
  {
    var C := Elements(ranked) * live;
    forall c | c in C && c != ranked[i]
      ensures Outranks(score, key, ranked[i], c)
    {
      var j :| 0 <= j < |ranked| && ranked[j] == c;
      assert ByRank(score, key)(ranked[i], ranked[j]);
    }
    assert ranked[i] in C;
    ExactlyOneWinner(score, key, C);
  }
}
