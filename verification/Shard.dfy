/** hub/shard/shard.go: weighted rendezvous placement and the trust clamp. */
module Shard {
  import opened Ids
  import opened Ranking
  import opened Sorting

  const COUNT: nat := 64
  const REPLICATION: nat := 3
  const MAX_UNTRUSTED_CAPACITY := 100

  datatype Hub = Hub(ID: Id, Capacity: int, Archive: bool)

  /** The positive factor -1/ln(unit(hub, shard)) of a score, kept abstract. */
  type Draw = f: (Id, nat) -> real | forall id, s :: f(id, s) > 0.0 witness (id, s) => 1.0

  function HubFrom(id: Id, capacity: int, archive: bool, trusted: bool): Hub {
    if trusted then Hub(id, capacity, archive)
    else
      var raised := if archive && capacity < MAX_UNTRUSTED_CAPACITY then MAX_UNTRUSTED_CAPACITY else capacity;
      var clamped := if raised > MAX_UNTRUSTED_CAPACITY then MAX_UNTRUSTED_CAPACITY else raised;
      Hub(id, clamped, false)
  }

  /** A trusted peer is taken at its word; an untrusted one is never an archive and has at most the clamp. */
  lemma TrustClamp(id: Id, capacity: int, archive: bool)
    ensures HubFrom(id, capacity, archive, true) == Hub(id, capacity, archive)
    ensures var h := HubFrom(id, capacity, archive, false);
      && h.ID == id && !h.Archive && h.Capacity <= 100
      && (archive || capacity >= 100 ==> h.Capacity == 100)
      && (!archive && capacity <= 100 ==> h.Capacity == capacity)
  {
  }

  /** The first 16 bits of a SHA-256 digest, for check IDs that are not hexadecimal. */
  type Digest = string -> nat

  predicate IsHex(c: char) {
    '0' <= c <= '9' || 'a' <= c <= 'f' || 'A' <= c <= 'F'
  }

  function HexValue(c: char): nat
    requires IsHex(c)
  {
    if c <= '9' then (c - '0') as int
    else if c <= 'F' then (c - 'A') as int + 10
    else (c - 'a') as int + 10
  }

  /** A digit is worth its place in the digits, in either case. */
  lemma HexValueIsPlace(c: char)
    requires IsHex(c)
    ensures HexValue(c) < 16 && (c == "0123456789abcdef"[HexValue(c)] || c == "0123456789ABCDEF"[HexValue(c)])
  {
    if c <= '9' {
      assert c == '0' + HexValue(c) as char;
    } else if c <= 'F' {
      assert c == 'A' + (HexValue(c) - 10) as char;
    } else {
      assert c == 'a' + (HexValue(c) - 10) as char;
    }
  }

  function Of(digest: Digest, checkID: string): nat {
    if |checkID| >= 4 && (forall i :: 0 <= i < 4 ==> IsHex(checkID[i])) then
      (4096 * HexValue(checkID[0]) + 256 * HexValue(checkID[1]) + 16 * HexValue(checkID[2]) + HexValue(checkID[3])) % COUNT
    else
      digest(checkID) % COUNT
  }

  /** A hexadecimal ID's shard is its first 16 bits modulo the count, which is what its third and fourth digits say. */
  lemma ShardOfHex(digest: Digest, checkID: string)
    requires |checkID| >= 4 && forall i :: 0 <= i < 4 ==> IsHex(checkID[i])
    ensures Of(digest, checkID) < 64
    ensures Of(digest, checkID) == (16 * HexValue(checkID[2]) + HexValue(checkID[3])) % 64
  {
    LowDigits(HexValue(checkID[0]), HexValue(checkID[1]), 16 * HexValue(checkID[2]) + HexValue(checkID[3]));
  }

  lemma LowDigits(a: nat, b: nat, rest: nat)
    ensures (4096 * a + 256 * b + rest) % 64 == rest % 64
  {
    SameRemainder(64 * a + 4 * b, rest);
  }

  lemma {:induction false} SameRemainder(n: nat, rest: nat)
    ensures (64 * n + rest) % 64 == rest % 64
  {
    if n > 0 {
      SameRemainder(n - 1, rest);
      assert 64 * n + rest == 64 * (n - 1) + rest + 64;
    }
  }

  function HexDigit(d: nat): char
    requires d < 16
  {
    if d < 10 then '0' + d as char else 'a' + (d - 10) as char
  }

  /** Every shard has checks, whatever the digest. */
  lemma EveryShardIsUsed(digest: Digest, s: nat)
    requires s < COUNT
    ensures exists checkID :: |checkID| == 16 && (forall i :: 0 <= i < 16 ==> IsHex(checkID[i])) && Of(digest, checkID) == s
  {
    var d: seq<char> := ['0', '0', HexDigit(s / 16), HexDigit(s % 16), '0', '0', '0', '0', '0', '0', '0', '0', '0', '0', '0', '0'];
    ShardOfHex(digest, d);
    assert HexValue(d[2]) == s / 16 && HexValue(d[3]) == s % 16;
  }

  function Score(f: Draw, h: Hub, s: nat): real {
    if h.Capacity <= 0 then 0.0 else h.Capacity as real * f(h.ID, s)
  }

  lemma ScoreMonotone(f: Draw, a: Hub, b: Hub, s: nat)
    requires a.ID == b.ID && a.Capacity <= b.Capacity
    ensures Score(f, a, s) <= Score(f, b, s)
  {
    if a.Capacity > 0 {
      var d := (b.Capacity - a.Capacity) as real;
      assert d * f(a.ID, s) >= 0.0;
      assert b.Capacity as real == a.Capacity as real + d;
    }
  }

  /** Capacity weighs in proportion: scores of one hub on one shard are in the ratio of its capacities. */
  lemma ScoreRatio(f: Draw, a: Hub, b: Hub, s: nat)
    requires a.ID == b.ID && a.Capacity > 0 && b.Capacity > 0
    ensures Score(f, a, s) > 0.0
    ensures Score(f, a, s) * b.Capacity as real == Score(f, b, s) * a.Capacity as real
  {
    var x, y, d := a.Capacity as real, b.Capacity as real, f(a.ID, s);
    assert x * d * y == y * d * x;
    assert x * d > 0.0;
  }

  datatype Scored = Scored(id: Id, sc: real)

  /** Score descending, then ID descending. */
  predicate Beats(a: Scored, b: Scored) {
    if a.sc != b.sc then a.sc > b.sc else Less(b.id, a.id)
  }

  lemma BeatsIsStrictTotal()
    ensures StrictTotal(Beats)
  {
    LessIsStrictTotal();
  }

  // ---- what a placement means, on a view (one entry per hub ID) ----

  type View = map<Id, Hub>

  ghost predicate Competes(h: Hub) {
    h.ID != "" && !h.Archive && h.Capacity > 0
  }

  ghost function Archives(V: View): set<Id> {
    set id | id in V && id != "" && V[id].Archive
  }

  ghost function Competing(V: View): set<Id> {
    set id | id in V && id != "" && !V[id].Archive && V[id].Capacity > 0
  }

  ghost function ScoreIn(f: Draw, s: nat, V: View, id: Id): Scored {
    Scored(id, if id in V then Score(f, V[id], s) else 0.0)
  }

  ghost function ByScore(f: Draw, s: nat, V: View): (Id, Id) -> bool {
    (a, b) => Beats(ScoreIn(f, s, V, a), ScoreIn(f, s, V, b))
  }

  lemma ByScoreIsStrictTotal(f: Draw, s: nat, V: View)
    ensures StrictTotal(ByScore(f, s, V))
  {
    LessIsStrictTotal();
  }

  /** Every archive, and the k best-scored competing hubs. */
  ghost function HolderSet(f: Draw, s: nat, V: View, k: int): set<Id> {
    Archives(V) + Top(ByScore(f, s, V), Competing(V), k)
  }

  // ---- the computation, on a list of hubs ----

  ghost predicate DistinctIds(hubs: seq<Hub>) {
    forall i, j :: 0 <= i < j < |hubs| ==> hubs[i].ID != hubs[j].ID
  }

  ghost function IdSet(hubs: seq<Hub>): set<Id> {
    set h | h in hubs :: h.ID
  }

  ghost function ViewOf(hubs: seq<Hub>): View {
    map id | id in IdSet(hubs) :: var h :| h in hubs && h.ID == id; h
  }

  lemma ViewOfHas(hubs: seq<Hub>)
    requires DistinctIds(hubs)
    ensures forall h :: h in hubs ==> h.ID in ViewOf(hubs) && ViewOf(hubs)[h.ID] == h
    ensures forall id :: id in ViewOf(hubs) ==> ViewOf(hubs)[id] in hubs && ViewOf(hubs)[id].ID == id
  {
  }

  function ArchiveIds(hubs: seq<Hub>): seq<Id> {
    if hubs == [] then []
    else
      var h := hubs[|hubs| - 1];
      ArchiveIds(hubs[..|hubs| - 1]) + if h.ID != "" && h.Archive then [h.ID] else []
  }

  function Candidates(f: Draw, s: nat, hubs: seq<Hub>): seq<Scored> {
    if hubs == [] then []
    else
      var h := hubs[|hubs| - 1];
      Candidates(f, s, hubs[..|hubs| - 1]) +
      if h.ID != "" && !h.Archive && h.Capacity > 0 then [Scored(h.ID, Score(f, h, s))] else []
  }

  function IdsOf(cand: seq<Scored>): seq<Id> {
    seq(|cand|, i requires 0 <= i < |cand| => cand[i].id)
  }

  ghost predicate IsRanking(ranked: seq<Scored>, f: Draw, s: nat, hubs: seq<Hub>) {
    multiset(ranked) == multiset(Candidates(f, s, hubs)) && Sorted(Beats, ranked)
  }

  ghost function FirstK(n: nat, k: int): nat {
    if k < 0 then 0 else if k > n then n else k
  }

  /** First pass of `Holders`: archives go straight out, the rest are scored. */
  method Partition(f: Draw, s: nat, hubs: seq<Hub>) returns (out: seq<Id>, cand: seq<Scored>)
    ensures out == ArchiveIds(hubs) && cand == Candidates(f, s, hubs)
  {
    out, cand := [], [];
    for i := 0 to |hubs|
      invariant out == ArchiveIds(hubs[..i])
      invariant cand == Candidates(f, s, hubs[..i])
    {
      assert hubs[..i + 1][..i] == hubs[..i];
      var h := hubs[i];
      if h.ID == "" {
        continue;
      }
      if h.Archive {
        out := out + [h.ID];
        continue;
      }
      if h.Capacity <= 0 {
        continue;
      }
      cand := cand + [Scored(h.ID, Score(f, h, s))];
    }
    assert hubs[..|hubs|] == hubs;
  }

  method Holders(f: Draw, s: nat, hubs: seq<Hub>, k: int) returns (out: seq<Id>)
    ensures exists ranked ::
      IsRanking(ranked, f, s, hubs) && out == ArchiveIds(hubs) + IdsOf(ranked)[..FirstK(|ranked|, k)]
    ensures DistinctIds(hubs) ==>
      Distinct(out) && Elements(out) == HolderSet(f, s, ViewOf(hubs), k)
  {
    var archives, cand := Partition(f, s, hubs);
    BeatsIsStrictTotal();
    StrictTotalIsWeak(Beats);
    var ranked := Sort(cand, Beats);
    out := AppendFirst(archives, ranked, k);
    assert IsRanking(ranked, f, s, hubs);
    if DistinctIds(hubs) {
      HoldersAreHolderSet(f, s, hubs, k, ranked);
    }
  }

  /** Second pass of `Holders`: the first k of the ranking follow the archives. */
  method AppendFirst(archives: seq<Id>, ranked: seq<Scored>, k: int) returns (out: seq<Id>)
    ensures out == archives + IdsOf(ranked)[..FirstK(|ranked|, k)]
  {
    var n := k;
    if n > |ranked| {
      n := |ranked|;
    }
    out := archives;
    var i := 0;
    while i < n
      invariant 0 <= i <= FirstK(|ranked|, k)
      invariant out == archives + IdsOf(ranked)[..i]
    {
      out := out + [ranked[i].id];
      i := i + 1;
    }
  }

  lemma {:induction false} ArchiveIdsElements(hubs: seq<Hub>)
    requires DistinctIds(hubs)
    ensures forall id :: id in ArchiveIds(hubs) <==> exists h :: h in hubs && h.ID == id && id != "" && h.Archive
    ensures Distinct(ArchiveIds(hubs))
  {
    if hubs == [] {
    } else {
      var n := |hubs| - 1;
      var init, h := hubs[..n], hubs[n];
      ArchiveIdsElements(init);
      assert hubs == init + [h];
      if h.ID != "" && h.Archive {
        assert h.ID !in ArchiveIds(init);
        DistinctConcat(ArchiveIds(init), [h.ID]);
      }
    }
  }

  lemma {:induction false} CandidatesElements(f: Draw, s: nat, hubs: seq<Hub>)
    requires DistinctIds(hubs)
    ensures forall c :: c in Candidates(f, s, hubs) <==>
      exists h :: h in hubs && Competes(h) && c == Scored(h.ID, Score(f, h, s))
    ensures Distinct(IdsOf(Candidates(f, s, hubs)))
  {
    if hubs == [] {
    } else {
      var n := |hubs| - 1;
      var init, h := hubs[..n], hubs[n];
      CandidatesElements(f, s, init);
      assert hubs == init + [h];
      var cs := Candidates(f, s, init);
      forall i | 0 <= i < |cs|
        ensures IdsOf(cs)[i] != h.ID
      {
        assert cs[i] in cs;
      }
      if Competes(h) {
        DistinctConcat(IdsOf(cs), [h.ID]);
        assert IdsOf(Candidates(f, s, hubs)) == IdsOf(cs) + [h.ID];
      } else {
        assert Candidates(f, s, hubs) == cs;
      }
    }
  }

  /** The sort-and-take computation selects exactly the holder set. */
  lemma HoldersAreHolderSet(f: Draw, s: nat, hubs: seq<Hub>, k: int, ranked: seq<Scored>)
    requires DistinctIds(hubs) && IsRanking(ranked, f, s, hubs)
    ensures var out := ArchiveIds(hubs) + IdsOf(ranked)[..FirstK(|ranked|, k)];
      Distinct(out) && Elements(out) == HolderSet(f, s, ViewOf(hubs), k)
  {
    var V := ViewOf(hubs);
    var ids := IdsOf(ranked);
    var n := FirstK(|ranked|, k);
    ViewOfHas(hubs);
    ArchiveIdsElements(hubs);
    assert Elements(ArchiveIds(hubs)) == Archives(V);
    RankedIds(f, s, hubs, ranked);
    ByScoreIsStrictTotal(f, s, V);
    TopOfOrdered(ByScore(f, s, V), ids, n);
    DistinctSize(ids);
    TopCap(ByScore(f, s, V), Competing(V), k, n);
    assert Elements(ids[..n]) <= Elements(ids);
    DistinctConcat(ArchiveIds(hubs), ids[..n]);
  }

  lemma RankedIds(f: Draw, s: nat, hubs: seq<Hub>, ranked: seq<Scored>)
    requires DistinctIds(hubs) && IsRanking(ranked, f, s, hubs)
    ensures Ordered(ByScore(f, s, ViewOf(hubs)), IdsOf(ranked))
    ensures Elements(IdsOf(ranked)) == Competing(ViewOf(hubs))
  {
    var V := ViewOf(hubs);
    var cs := Candidates(f, s, hubs);
    ViewOfHas(hubs);
    CandidatesElements(f, s, hubs);
    forall i, j | 0 <= i < j < |cs|
      ensures cs[i] != cs[j]
    {
      assert IdsOf(cs)[i] != IdsOf(cs)[j];
    }
    BeatsIsStrictTotal();
    SortedIsOrdered(Beats, cs, ranked);
    forall c
      ensures c in ranked <==> c in cs
    {
      assert c in ranked <==> c in Elements(ranked);
      assert c in cs <==> c in Elements(cs);
    }
    forall i | 0 <= i < |ranked|
      ensures ranked[i] == ScoreIn(f, s, V, ranked[i].id)
    {
      assert ranked[i] in cs;
    }
    forall id
      ensures id in IdsOf(ranked) <==> id in Competing(V)
    {
      if id in Competing(V) {
        assert V[id] in hubs && Competes(V[id]);
        assert ScoreIn(f, s, V, id) in ranked;
        var i :| 0 <= i < |ranked| && ranked[i] == ScoreIn(f, s, V, id);
        assert IdsOf(ranked)[i] == id;
      }
      if id in IdsOf(ranked) {
        var i :| 0 <= i < |ranked| && IdsOf(ranked)[i] == id;
        assert ranked[i] in cs;
      }
    }
  }

  /** Asking for more, or fewer than none, is asking for as many as there are, or none. */
  lemma TopCap(before: (Id, Id) -> bool, S: set<Id>, k: int, n: nat)
    requires StrictTotal(before) && n == FirstK(|S|, k)
    ensures Top(before, S, k) == Top(before, S, n)
  {
    forall x | x in S
      ensures |Ahead(before, S, x)| < |S|
    {
      SubsetSize(Ahead(before, S, x), S - {x});
    }
  }

  ghost predicate IsHolder(f: Draw, s: nat, hubs: seq<Hub>, k: int, id: Id) {
    id in HolderSet(f, s, ViewOf(hubs), k)
  }

  lemma ArchiveHoldsEverything(f: Draw, hubs: seq<Hub>, h: Hub, k: int)
    requires DistinctIds(hubs) && h in hubs && h.Archive && h.ID != ""
    ensures forall s: nat :: IsHolder(f, s, hubs, k, h.ID)
  {
    ViewOfHas(hubs);
    assert h.ID in Archives(ViewOf(hubs));
  }

  method HoldsShard(f: Draw, s: nat, selfID: Id, hubs: seq<Hub>, k: int) returns (r: bool)
    ensures DistinctIds(hubs) ==> (r <==> IsHolder(f, s, hubs, k, selfID))
  {
    var ids := Holders(f, s, hubs, k);
    r := selfID in ids;
    assert selfID in Elements(ids) <==> selfID in ids;
  }

  /** The shards a hub holds; the inverse of `Holders` for every hub that has an ID. */
  method AssignedShards(f: Draw, selfID: Id, hubs: seq<Hub>, k: int) returns (out: set<nat>)
    ensures DistinctIds(hubs) && selfID != "" ==>
      forall s: nat :: s in out <==> s < COUNT && IsHolder(f, s, hubs, k, selfID)
  {
    for i := 0 to |hubs|
    {
      if hubs[i].ID == selfID && hubs[i].Archive {
        out := EveryShard();
        if DistinctIds(hubs) && selfID != "" {
          ArchiveHoldsEverything(f, hubs, hubs[i], k);
        }
        return;
      }
    }
    out := {};
    for s: nat := 0 to COUNT
      invariant DistinctIds(hubs) ==>
        forall t: nat :: t in out <==> t < s && IsHolder(f, t, hubs, k, selfID)
    {
      var held := HoldsShard(f, s, selfID, hubs, k);
      if held {
        out := out + {s};
      }
    }
  }

  method EveryShard() returns (all: set<nat>)
    ensures forall s: nat :: s in all <==> s < COUNT
  {
    all := {};
    for s: nat := 0 to COUNT
      invariant forall t: nat :: t in all <==> t < s
    {
      all := all + {s};
    }
  }

  /**
   Of two competing hubs of which one holds the shard and the other does not, the holder draws more, weighted by
   capacity, or as much and has the larger ID.
   */
  lemma HoldersOutscore(f: Draw, s: nat, V: View, k: int, u: Id, w: Id)
    requires u in Competing(V) && w in Competing(V)
    requires u in HolderSet(f, s, V, k) && w !in HolderSet(f, s, V, k)
    ensures var drawn, other := V[u].Capacity as real * f(V[u].ID, s), V[w].Capacity as real * f(V[w].ID, s);
      drawn > other || (drawn == other && Less(w, u))
  {
    HolderIsAhead(f, s, V, k, u, w);
    assert Score(f, V[u], s) == V[u].Capacity as real * f(V[u].ID, s);
    assert Score(f, V[w], s) == V[w].Capacity as real * f(V[w].ID, s);
  }

  lemma HolderIsAhead(f: Draw, s: nat, V: View, k: int, u: Id, w: Id)
    requires u in Competing(V) && w in Competing(V)
    requires u in HolderSet(f, s, V, k) && w !in HolderSet(f, s, V, k)
    ensures Beats(Scored(u, Score(f, V[u], s)), Scored(w, Score(f, V[w], s)))
  {
    ByScoreIsStrictTotal(f, s, V);
    if ByScore(f, s, V)(w, u) {
      RankInjective(ByScore(f, s, V), Competing(V), w, u);
    }
    assert u != w;
    assert ByScore(f, s, V)(u, w);
  }

  /** Holders have an ID and a role or capacity, and where fewer than k compete, every such hub is one. */
  lemma OnlyTheAbleHold(f: Draw, s: nat, V: View, k: int, id: Id)
    requires id in V
    ensures id in HolderSet(f, s, V, k) ==> id != "" && (V[id].Archive || V[id].Capacity > 0)
    ensures id != "" && V[id].Archive ==> id in HolderSet(f, s, V, k)
    ensures |set j | j in V && j != "" && !V[j].Archive && V[j].Capacity > 0| <= k && id != "" && V[id].Capacity > 0 ==>
      id in HolderSet(f, s, V, k)
  {
    ByScoreIsStrictTotal(f, s, V);
    var S := set j | j in V && j != "" && !V[j].Archive && V[j].Capacity > 0;
    assert S == Competing(V);
    if id in S {
      SubsetSize(Ahead(ByScore(f, s, V), S, id) + {id}, S);
      assert id !in Ahead(ByScore(f, s, V), S, id);
    }
  }

  // ---- placement is order-free and minimally disruptive ----

  /** Two lists of the same hubs, in any order, have the same holders. */
  lemma HoldersOrderFree(f: Draw, s: nat, a: seq<Hub>, b: seq<Hub>, k: int)
    requires DistinctIds(a) && DistinctIds(b) && multiset(a) == multiset(b)
    ensures HolderSet(f, s, ViewOf(a), k) == HolderSet(f, s, ViewOf(b), k)
  {
    SameElements(a, b);
    forall h
      ensures h in a <==> h in b
    {
      assert h in a <==> h in Elements(a);
      assert h in b <==> h in Elements(b);
    }
    ViewOfHas(a);
    ViewOfHas(b);
    assert ViewOf(a).Keys == ViewOf(b).Keys;
    assert ViewOf(a) == ViewOf(b);
  }

  /** When hub g leaves, no other hub loses a shard, and at most one takes g's place. */
  lemma RemovingOneHub(f: Draw, s: nat, V: View, k: int, g: Id)
    requires g in V
    ensures HolderSet(f, s, V, k) - {g} <= HolderSet(f, s, V - {g}, k)
    ensures |HolderSet(f, s, V - {g}, k) - HolderSet(f, s, V, k)| <= 1
    ensures g !in Top(ByScore(f, s, V), Competing(V), k) ==>
      HolderSet(f, s, V - {g}, k) == HolderSet(f, s, V, k) - {g}
  {
    var V' := V - {g};
    ByScoreIsStrictTotal(f, s, V);
    assert Archives(V') == Archives(V) - {g};
    assert Competing(V') == Competing(V) - {g};
    SameTop(ByScore(f, s, V), ByScore(f, s, V'), Competing(V'), k);
    if g in Competing(V) {
      TopAfterRemoval(ByScore(f, s, V), Competing(V), k, g);
      SubsetSize(HolderSet(f, s, V', k) - HolderSet(f, s, V, k),
                 Top(ByScore(f, s, V), Competing(V'), k) - Top(ByScore(f, s, V), Competing(V), k));
    } else {
      assert Competing(V') == Competing(V);
    }
  }

  /** The top k depends on the order only within the set. */
  lemma SameTop(a: (Id, Id) -> bool, b: (Id, Id) -> bool, S: set<Id>, k: int)
    requires forall x, y :: x in S && y in S ==> (a(x, y) <==> b(x, y))
    ensures Top(a, S, k) == Top(b, S, k)
  {
    forall x | x in S
      ensures Ahead(a, S, x) == Ahead(b, S, x)
    {
    }
  }
}
