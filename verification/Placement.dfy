/**
 Placement across hubs that do not share one view.  Each hub sees itself as it is
 and every peer through `Shard.HubFrom`, so two hubs rank the same peer differently.
 The theorems say what survives that: durability, for any trust sets and any partial
 views, and routing, between hubs that trust alike.
 */
module Placement {
  import opened Ids
  import opened Protocol
  import opened Ranking
  import opened Shard
  import opened Interest

  // ---- building a view (storageHubs, recompute, backfill) ----

  function PeerHub(ann: HubAnnouncement, trusted: set<Id>): Hub {
    HubFrom(ann.HubID, ann.StorageCapacity, ann.StorageArchive, ann.HubID in trusted)
  }

  function ViewHubs(self: Hub, live: seq<HubAnnouncement>, trusted: set<Id>): seq<Hub> {
    [self] + seq(|live|, i requires 0 <= i < |live| => PeerHub(live[i], trusted))
  }

  /** How a peer enters the view: taken at its word if trusted, else no archive and clamped to 100. */
  ghost predicate Enters(ann: HubAnnouncement, trusted: bool, h: Hub) {
    && h.ID == ann.HubID
    && if trusted then h.Capacity == ann.StorageCapacity && h.Archive == ann.StorageArchive
       else !h.Archive && h.Capacity == if ann.StorageArchive || ann.StorageCapacity >= 100 then 100 else ann.StorageCapacity
  }

  method StorageHubs(self: Hub, live: seq<HubAnnouncement>, trusted: set<Id>) returns (hubs: seq<Hub>)
    ensures hubs == ViewHubs(self, live, trusted)
    ensures |hubs| == |live| + 1 && hubs[0] == self
    ensures forall i :: 0 <= i < |live| ==> Enters(live[i], live[i].HubID in trusted, hubs[i + 1])
  {
    hubs := [self];
    for i := 0 to |live|
      invariant hubs == ViewHubs(self, live[..i], trusted)
      invariant forall j :: 0 <= j < i ==> Enters(live[j], live[j].HubID in trusted, hubs[j + 1])
    {
      TrustClamp(live[i].HubID, live[i].StorageCapacity, live[i].StorageArchive);
      hubs := hubs + [PeerHub(live[i], trusted)];
    }
    assert live[..|live|] == live;
  }

  /** A directory has one announcement per peer and none for the hub itself. */
  ghost predicate DirectoryList(self: Hub, live: seq<HubAnnouncement>) {
    && (forall i, j :: 0 <= i < j < |live| ==> live[i].HubID != live[j].HubID)
    && (forall a :: a in live ==> a.HubID != self.ID)
  }

  lemma ViewHubsDistinct(self: Hub, live: seq<HubAnnouncement>, trusted: set<Id>)
    requires DirectoryList(self, live)
    ensures DistinctIds(ViewHubs(self, live, trusted))
  {
    var hubs := ViewHubs(self, live, trusted);
    forall i, j | 0 <= i < j < |hubs|
      ensures hubs[i].ID != hubs[j].ID
    {
      assert hubs[j].ID == live[j - 1].HubID && live[j - 1] in live;
    }
  }

  /** One pass of `recompute`: the interest set, the shard topics joined, the backfills launched. */
  method Recompute(f: Draw, digest: Digest, self: Hub, live: seq<HubAnnouncement>, trusted: set<Id>,
                   pinned: set<string>, interest: Interest.Set, prev: Option<set<nat>>)
    returns (shards: set<nat>, subscribed: set<nat>, launched: set<nat>)
    requires self.ID != ""
    modifies interest
    ensures interest.State() == Snapshot(true, self.Archive, shards, pinned)
    ensures DirectoryList(self, live) ==>
      forall s: nat :: s in shards <==> s < COUNT && IsHolder(f, s, ViewHubs(self, live, trusted), REPLICATION, self.ID)
    // every result the hub will store arrives on a topic it joined
    ensures forall checkID :: interest.State().Holds(digest, checkID) ==> Of(digest, checkID) in subscribed
    ensures launched == if self.Archive then {} else if prev.None? then shards else shards - prev.value
  {
    var hubs := StorageHubs(self, live, trusted);
    if DirectoryList(self, live) {
      ViewHubsDistinct(self, live, trusted);
    }
    shards := AssignedShards(f, self.ID, hubs, REPLICATION);
    interest.Update(self.Archive, shards, pinned);
    if self.Archive {
      subscribed := EveryShard();
      launched := {};
    } else {
      subscribed := shards;
      var todo := pinned;
      while todo != {}
        invariant todo <= pinned && shards <= subscribed
        invariant forall c :: c in pinned - todo ==> Of(digest, c) in subscribed
      {
        var c :| c in todo;
        subscribed := subscribed + {Of(digest, c)};
        todo := todo - {c};
      }
      launched := if prev.None? then shards else shards - prev.value;
    }
  }

  /** The live peers this hub takes for holders of a check's shard. */
  ghost predicate NamedHolder(f: Draw, digest: Digest, self: Hub, live: seq<HubAnnouncement>, trusted: set<Id>,
                              checkID: string, a: HubAnnouncement) {
    a in live && IsHolder(f, Of(digest, checkID), ViewHubs(self, live, trusted), REPLICATION, a.HubID)
  }

  method URLByID(live: seq<HubAnnouncement>) returns (urlByID: map<Id, string>)
    ensures forall id :: id in urlByID ==> exists a :: a in live && a.HubID == id && a.PublicURL == urlByID[id]
    ensures forall a :: a in live ==> a.HubID in urlByID
  {
    urlByID := map[];
    for i := 0 to |live|
      invariant forall id :: id in urlByID ==> exists a :: a in live[..i] && a.HubID == id && a.PublicURL == urlByID[id]
      invariant forall a :: a in live[..i] ==> a.HubID in urlByID
    {
      assert live[..i + 1] == live[..i] + [live[i]];
      urlByID := urlByID[live[i].HubID := live[i].PublicURL];
    }
    assert live[..|live|] == live;
  }

  /** The non-empty URLs of the listed hubs other than self, in list order. */
  function URLsOf(ids: seq<Id>, self: Id, urlByID: map<Id, string>): seq<string> {
    if ids == [] then []
    else
      var id := ids[|ids| - 1];
      URLsOf(ids[..|ids| - 1], self, urlByID) +
      if id != self && id in urlByID && urlByID[id] != "" then [urlByID[id]] else []
  }

  lemma {:induction false} URLsOfElements(ids: seq<Id>, self: Id, urlByID: map<Id, string>, u: string)
    ensures u in URLsOf(ids, self, urlByID) <==>
      u != "" && exists id :: id in ids && id != self && id in urlByID && urlByID[id] == u
  {
    if ids != [] {
      var n := |ids| - 1;
      assert ids == ids[..n] + [ids[n]];
      URLsOfElements(ids[..n], self, urlByID, u);
    }
  }

  method JoinURLs(ids: seq<Id>, self: Id, urlByID: map<Id, string>) returns (urls: seq<string>)
    ensures urls == URLsOf(ids, self, urlByID)
  {
    urls := [];
    for i := 0 to |ids|
      invariant urls == URLsOf(ids[..i], self, urlByID)
    {
      assert ids[..i + 1][..i] == ids[..i];
      var id := ids[i];
      if id == self {
        continue;
      }
      if id in urlByID && urlByID[id] != "" {
        urls := urls + [urlByID[id]];
      }
    }
    assert ids[..|ids|] == ids;
  }

  /** Where to read, or push, a check this hub does not store: every other holder that has a URL. */
  method HolderURLs(f: Draw, digest: Digest, self: Hub, live: seq<HubAnnouncement>, trusted: set<Id>, checkID: string)
    returns (urls: seq<string>)
    ensures DirectoryList(self, live) ==> forall u :: u in urls <==>
      u != "" && exists a :: NamedHolder(f, digest, self, live, trusted, checkID, a) && a.PublicURL == u
  {
    var hubs := StorageHubs(self, live, trusted);
    var holders := Holders(f, Of(digest, checkID), hubs, REPLICATION);
    var urlByID := URLByID(live);
    urls := JoinURLs(holders, self.ID, urlByID);
    if DirectoryList(self, live) {
      ViewHubsDistinct(self, live, trusted);
      forall u
        ensures u in urls <==> u != "" && exists a :: NamedHolder(f, digest, self, live, trusted, checkID, a) && a.PublicURL == u
      {
        URLsAreNamedHolders(f, digest, self, live, trusted, checkID, holders, urlByID, u);
      }
    }
  }

  lemma URLsAreNamedHolders(f: Draw, digest: Digest, self: Hub, live: seq<HubAnnouncement>, trusted: set<Id>,
                            checkID: string, holders: seq<Id>, urlByID: map<Id, string>, u: string)
    requires DirectoryList(self, live)
    requires Elements(holders) ==
      HolderSet(f, Of(digest, checkID), ViewOf(ViewHubs(self, live, trusted)), REPLICATION)
    requires forall id :: id in urlByID ==> exists a :: a in live && a.HubID == id && a.PublicURL == urlByID[id]
    requires forall a :: a in live ==> a.HubID in urlByID
    ensures u in URLsOf(holders, self.ID, urlByID) <==>
      u != "" && exists a :: NamedHolder(f, digest, self, live, trusted, checkID, a) && a.PublicURL == u
  {
    URLsOfElements(holders, self.ID, urlByID, u);
    if id :| id in holders && id in urlByID && urlByID[id] == u {
      var a :| a in live && a.HubID == id && a.PublicURL == u;
      assert id in Elements(holders);
      assert NamedHolder(f, digest, self, live, trusted, checkID, a);
    }
    if a :| NamedHolder(f, digest, self, live, trusted, checkID, a) && a.PublicURL == u {
      assert a.HubID in Elements(holders);
      var b :| b in live && b.HubID == a.HubID && b.PublicURL == urlByID[a.HubID];
      var i :| 0 <= i < |live| && live[i] == a;
      var j :| 0 <= j < |live| && live[j] == b;
      assert i == j;
    }
  }

  // ---- the mesh: the hubs as they really are, and how each sees the others ----

  /** Every hub under its own configuration. */
  type World = W: map<Id, Hub> | forall id :: id in W ==> id != "" && W[id].ID == id witness map[]

  /** Hub v's view when it sees `seen` and trusts `trusted`. */
  ghost function ViewAt(W: World, v: Id, seen: set<Id>, trusted: set<Id>): View
    requires v in W
  {
    map id | id in W && (id == v || id in seen) ::
      if id == v then W[v] else HubFrom(id, W[id].Capacity, W[id].Archive, id in trusted)
  }

  /** The announcements `live` are current copies of what the hubs of W declare. */
  ghost predicate Current(W: World, live: seq<HubAnnouncement>) {
    forall a :: a in live ==>
      a.HubID in W && a.StorageCapacity == W[a.HubID].Capacity && a.StorageArchive == W[a.HubID].Archive
  }

  ghost function Announced(live: seq<HubAnnouncement>): set<Id> {
    set a | a in live :: a.HubID
  }

  lemma AnnouncedIndex(live: seq<HubAnnouncement>, id: Id) returns (i: nat)
    requires id in Announced(live)
    ensures i < |live| && live[i].HubID == id
  {
    var a :| a in live && a.HubID == id;
    i :| i < |live| && live[i] == a;
  }

  lemma ViewHubsAre(W: World, v: Id, live: seq<HubAnnouncement>, trusted: set<Id>, h: Hub)
    requires v in W && DirectoryList(W[v], live) && Current(W, live)
    ensures var V := ViewAt(W, v, Announced(live), trusted);
      h in ViewHubs(W[v], live, trusted) <==> h.ID in V && V[h.ID] == h
  {
    var hubs := ViewHubs(W[v], live, trusted);
    var V := ViewAt(W, v, Announced(live), trusted);
    if h in hubs {
      var i :| 0 <= i < |hubs| && hubs[i] == h;
      if i > 0 {
        assert live[i - 1] in live;
      }
    }
    if h.ID in V && V[h.ID] == h {
      if h.ID == v {
        assert hubs[0] == h;
      } else {
        var i := AnnouncedIndex(live, h.ID);
        assert live[i] in live && hubs[i + 1] == h;
      }
    }
  }

  /** The list a hub builds from its directory is its view of the mesh. */
  lemma DirectoryGivesView(W: World, v: Id, live: seq<HubAnnouncement>, trusted: set<Id>)
    requires v in W && DirectoryList(W[v], live) && Current(W, live)
    ensures ViewOf(ViewHubs(W[v], live, trusted)) == ViewAt(W, v, Announced(live), trusted)
  {
    var hubs := ViewHubs(W[v], live, trusted);
    var V := ViewAt(W, v, Announced(live), trusted);
    ViewHubsDistinct(W[v], live, trusted);
    ViewOfHas(hubs);
    forall id
      ensures id in ViewOf(hubs) <==> id in V
      ensures id in V ==> ViewOf(hubs)[id] == V[id]
    {
      if id in ViewOf(hubs) {
        ViewHubsAre(W, v, live, trusted, ViewOf(hubs)[id]);
      }
      if id in V {
        ViewHubsAre(W, v, live, trusted, V[id]);
      }
    }
  }

  /** The hubs able to store anything. */
  ghost function Eligible(W: World): set<Id> {
    set id | id in W && (W[id].Archive || W[id].Capacity > 0)
  }

  /** An upper bound on how any hub sees any other: archives compete at the clamp, nobody is clamped. */
  ghost function Strongest(W: World): View {
    map id | id in W ::
      if W[id].Archive then Hub(id, MAX_UNTRUSTED_CAPACITY, false) else W[id]
  }

  /**
   A hub in the top k of the strongest common view stores the shard by its own view,
   whoever it sees and trusts.
   */
  lemma StrongestHolderHolds(f: Draw, W: World, v: Id, seen: set<Id>, trusted: set<Id>, s: nat, k: int)
    requires v in W
    requires v in Top(ByScore(f, s, Strongest(W)), Competing(Strongest(W)), k)
    ensures v in HolderSet(f, s, ViewAt(W, v, seen, trusted), k)
  {
    var V, M := ViewAt(W, v, seen, trusted), Strongest(W);
    if W[v].Archive {
      assert v in Archives(V);
    } else {
      forall y | y in Ahead(ByScore(f, s, V), Competing(V), v)
        ensures y in Ahead(ByScore(f, s, M), Competing(M), v)
      {
        ScoreMonotone(f, V[y], M[y], s);
      }
      SubsetSize(Ahead(ByScore(f, s, V), Competing(V), v), Ahead(ByScore(f, s, M), Competing(M), v));
    }
  }

  /** The hubs that store shard s, each deciding by its own view. */
  ghost function ActualHolders(f: Draw, W: World, seen: map<Id, set<Id>>, trusted: map<Id, set<Id>>, s: nat, k: int): set<Id>
    requires seen.Keys == trusted.Keys == W.Keys
  {
    set v | v in W && v in HolderSet(f, s, ViewAt(W, v, seen[v], trusted[v]), k)
  }

  /**
   Durability: whatever each hub sees and trusts, every shard is stored by at least
   min(k, number of hubs able to store) hubs.
   */
  lemma ShardIsDurable(f: Draw, W: World, seen: map<Id, set<Id>>, trusted: map<Id, set<Id>>, s: nat, k: nat)
    requires seen.Keys == trusted.Keys == W.Keys
    ensures |ActualHolders(f, W, seen, trusted, s, k)| >= Min(k, |Eligible(W)|)
  {
    var M := Strongest(W);
    var top := Top(ByScore(f, s, M), Competing(M), k);
    assert Competing(M) == Eligible(W);
    ByScoreIsStrictTotal(f, s, M);
    TopSize(ByScore(f, s, M), Competing(M), k);
    forall v | v in top
      ensures v in ActualHolders(f, W, seen, trusted, s, k)
    {
      StrongestHolderHolds(f, W, v, seen[v], trusted[v], s, k);
    }
    SubsetSize(top, ActualHolders(f, W, seen, trusted, s, k));
  }

  /** What `Recompute` leaves in an interest set; before the first pass nothing is known. */
  ghost predicate Computed(snap: Snapshot, f: Draw, W: World, v: Id, seen: set<Id>, trusted: set<Id>)
    requires v in W
  {
    snap.ready ==>
      && snap.archive == W[v].Archive
      && forall s: nat :: s in snap.shards <==>
           s < COUNT && v in HolderSet(f, s, ViewAt(W, v, seen, trusted), REPLICATION)
  }

  ghost function Keepers(W: World, snaps: map<Id, Snapshot>, digest: Digest, checkID: string): set<Id>
    requires snaps.Keys == W.Keys
  {
    set v | v in W && snaps[v].Holds(digest, checkID)
  }

  /** A result for any check is stored by at least min(3, hubs able to store) hubs. */
  lemma CheckIsDurable(f: Draw, digest: Digest, W: World, snaps: map<Id, Snapshot>,
                       seen: map<Id, set<Id>>, trusted: map<Id, set<Id>>, checkID: string)
    requires seen.Keys == trusted.Keys == snaps.Keys == W.Keys
    requires forall v :: v in W ==> Computed(snaps[v], f, W, v, seen[v], trusted[v])
    ensures |Keepers(W, snaps, digest, checkID)| >= Min(3, |Eligible(W)|)
  {
    var s := Of(digest, checkID);
    ShardIsDurable(f, W, seen, trusted, s, REPLICATION);
    SubsetSize(ActualHolders(f, W, seen, trusted, s, REPLICATION), Keepers(W, snaps, digest, checkID));
  }

  /** A hub that has computed its interest stores a check exactly if it is an archive, pins it, or holds its shard. */
  lemma StoresExactly(f: Draw, digest: Digest, W: World, v: Id, snap: Snapshot, seen: set<Id>, trusted: set<Id>, checkID: string)
    requires v in W && snap.ready && Computed(snap, f, W, v, seen, trusted)
    ensures snap.Holds(digest, checkID) <==>
      W[v].Archive || checkID in snap.pinned || v in HolderSet(f, Of(digest, checkID), ViewAt(W, v, seen, trusted), REPLICATION)
  {
  }

  // ---- what an untrusted peer can gain by its announcement ----

  /** The hub declares itself an archive, or to have at least the clamp. */
  ghost predicate ClaimsMuch(h: Hub) {
    h.Archive || h.Capacity >= 100
  }

  /** The same mesh but for what hub u says of itself, which is much in both. */
  ghost predicate DiffersAt(W: World, W': World, u: Id) {
    && W.Keys == W'.Keys
    && u in W && ClaimsMuch(W[u]) && ClaimsMuch(W'[u])
    && forall id :: id in W && id != u ==> W[id] == W'[id]
  }

  /** However much more an untrusted peer claims, no other hub's view or placement changes: it cannot eclipse anyone. */
  lemma NoEclipse(f: Draw, W: World, W': World, u: Id, v: Id, seen: set<Id>, trusted: set<Id>, s: nat, k: int)
    requires DiffersAt(W, W', u) && v in W && v != u && u !in trusted
    ensures ViewAt(W, v, seen, trusted) == ViewAt(W', v, seen, trusted)
    ensures HolderSet(f, s, ViewAt(W, v, seen, trusted), k) == HolderSet(f, s, ViewAt(W', v, seen, trusted), k)
  {
    TrustClamp(u, W[u].Capacity, W[u].Archive);
    TrustClamp(u, W'[u].Capacity, W'[u].Archive);
  }

  /** Every peer's entry: as claimed if it is trusted, else no archive and at most the clamp, and less only if it claims less. */
  lemma PeerEntries(W: World, v: Id, seen: set<Id>, trusted: set<Id>, u: Id)
    requires v in W && u in W && u != v && u in seen
    ensures u in ViewAt(W, v, seen, trusted)
    ensures var h := ViewAt(W, v, seen, trusted)[u];
      if u in trusted then h == W[u]
      else !h.Archive && h.Capacity == if ClaimsMuch(W[u]) then 100 else W[u].Capacity
  {
    TrustClamp(u, W[u].Capacity, W[u].Archive);
  }

  // ---- routing ----

  /** u trusts nobody that v does not, and v takes no peer for an archive unless u does. */
  ghost predicate TrustsLike(W: World, v: Id, tv: set<Id>, u: Id, tu: set<Id>) {
    forall w :: w in W && w != u && w != v ==>
      && (w in tu ==> w in tv)
      && (w in tv && W[w].Archive ==> w in tu)
  }

  /** v sees a competitor of u at least as large as u does. */
  lemma NamerSeesNoLess(W: World, v: Id, sv: set<Id>, tv: set<Id>, u: Id, su: set<Id>, tu: set<Id>, y: Id)
    requires v in W && u in W && u != v && !W[v].Archive
    requires su <= sv + {v, u} && TrustsLike(W, v, tv, u, tu)
    requires y in Competing(ViewAt(W, u, su, tu)) && y != u
    ensures y in Competing(ViewAt(W, v, sv, tv))
    ensures ViewAt(W, u, su, tu)[y].Capacity <= ViewAt(W, v, sv, tv)[y].Capacity
  {
    if y != v {
      assert y in su && y in sv && y in W;
      assert y in tu ==> y in tv;
      assert y in tv && W[y].Archive ==> y in tu;
    }
  }

  /**
   Every remote holder a non-archive hub names really is one by its own view, provided
   that view has nobody the namer missed.
   */
  lemma NamedHolderHolds(f: Draw, W: World, v: Id, sv: set<Id>, tv: set<Id>,
                         u: Id, su: set<Id>, tu: set<Id>, s: nat, k: int)
    requires v in W && u in W && u != v && !W[v].Archive
    requires su <= sv + {v, u} && TrustsLike(W, v, tv, u, tu)
    requires u in HolderSet(f, s, ViewAt(W, v, sv, tv), k)
    ensures u in HolderSet(f, s, ViewAt(W, u, su, tu), k)
  {
    var V, U := ViewAt(W, v, sv, tv), ViewAt(W, u, su, tu);
    if W[u].Archive {
      assert u in Archives(U);
    } else {
      ScoreMonotone(f, V[u], U[u], s);
      forall y | y in Ahead(ByScore(f, s, U), Competing(U), u)
        ensures y in Ahead(ByScore(f, s, V), Competing(V), u)
      {
        ByScoreIsStrictTotal(f, s, U);
        NamerSeesNoLess(W, v, sv, tv, u, su, tu, y);
        ScoreMonotone(f, U[y], V[y], s);
      }
      SubsetSize(Ahead(ByScore(f, s, U), Competing(U), u), Ahead(ByScore(f, s, V), Competing(V), u));
    }
  }

  /** Every hub as an untrusting peer sees it. */
  ghost function CommonView(W: World): View {
    map id | id in W :: HubFrom(id, W[id].Capacity, W[id].Archive, false)
  }

  /** Raising one hub that still does not make the top k leaves the top k alone. */
  lemma RaisedOutsider(a: (Id, Id) -> bool, b: (Id, Id) -> bool, S: set<Id>, k: int, v: Id)
    requires StrictTotal(a) && StrictTotal(b) && v in S
    requires forall x, y :: x in S && y in S && x != v && y != v ==> (a(x, y) <==> b(x, y))
    requires forall y :: y in S && y != v ==> (b(y, v) ==> a(y, v))
    requires v !in Top(b, S, k)
    ensures Top(a, S, k) == Top(b, S, k)
  {
    SubsetSize(Ahead(b, S, v), Ahead(a, S, v));
    TopAfterRemoval(a, S, k, v);
    TopAfterRemoval(b, S, k, v);
    SameTop(a, b, S - {v}, k);
  }

  /**
   Under the open policy a non-archive hub that sees the whole mesh and does not hold a
   shard computes the holders of the fully clamped view every other hub shares.
   */
  lemma NonHolderSeesCommonView(f: Draw, W: World, v: Id, seen: set<Id>, s: nat, k: int)
    requires v in W && !W[v].Archive && W.Keys <= seen
    requires v !in HolderSet(f, s, ViewAt(W, v, seen, {}), k)
    ensures HolderSet(f, s, ViewAt(W, v, seen, {}), k) == HolderSet(f, s, CommonView(W), k)
  {
    var V, C := ViewAt(W, v, seen, {}), CommonView(W);
    assert Archives(V) == {} == Archives(C);
    assert Competing(V) == Competing(C);
    ByScoreIsStrictTotal(f, s, V);
    ByScoreIsStrictTotal(f, s, C);
    if v in Competing(V) {
      ScoreMonotone(f, C[v], V[v], s);
      RaisedOutsider(ByScore(f, s, C), ByScore(f, s, V), Competing(V), k, v);
    } else {
      SameTop(ByScore(f, s, V), ByScore(f, s, C), Competing(V), k);
    }
  }

  /**
   Push on submit: a hub that does not store a result names exactly min(3, able) holders,
   and each of them stores it by its own interest set.
   */
  lemma PushReachesEveryHolder(f: Draw, digest: Digest, W: World, snaps: map<Id, Snapshot>, v: Id, checkID: string)
    requires snaps.Keys == W.Keys && v in W
    requires forall u :: u in W ==> Computed(snaps[u], f, W, u, W.Keys, {})
    requires !snaps[v].Holds(digest, checkID)
    ensures var targets := HolderSet(f, Of(digest, checkID), ViewAt(W, v, W.Keys, {}), REPLICATION);
      && v !in targets
      && |targets| == Min(3, |Eligible(W)|)
      && targets <= Keepers(W, snaps, digest, checkID)
  {
    var s := Of(digest, checkID);
    var targets := HolderSet(f, s, ViewAt(W, v, W.Keys, {}), REPLICATION);
    NonHolderSeesCommonView(f, W, v, W.Keys, s, REPLICATION);
    CommonHolderCount(f, W, s, REPLICATION);
    forall u | u in targets
      ensures u in Keepers(W, snaps, digest, checkID)
    {
      NamedHolderHolds(f, W, v, W.Keys, {}, u, W.Keys, {}, s, REPLICATION);
    }
  }

  lemma CommonHolderCount(f: Draw, W: World, s: nat, k: nat)
    ensures |HolderSet(f, s, CommonView(W), k)| == Min(k, |Eligible(W)|)
  {
    var C := CommonView(W);
    assert Archives(C) == {} && Competing(C) == Eligible(W);
    ByScoreIsStrictTotal(f, s, C);
    TopSize(ByScore(f, s, C), Competing(C), k);
  }

  /** An archive stores everything, before its first update and after it, so it never reads or pushes elsewhere. */
  lemma RoutingHubIsNoArchive(f: Draw, digest: Digest, W: World, v: Id, snap: Snapshot, seen: set<Id>, trusted: set<Id>, checkID: string)
    requires v in W && Computed(snap, f, W, v, seen, trusted) && !snap.Holds(digest, checkID)
    ensures !W[v].Archive && v !in HolderSet(f, Of(digest, checkID), ViewAt(W, v, seen, trusted), REPLICATION)
  {
  }

  /**
   Routing under partial views: every remote holder named by a hub that does not store a check stores it
   by its own interest set, if it trusts like the namer and sees nobody the namer missed.
   */
  lemma RoutedHolderStores(f: Draw, digest: Digest, W: World, v: Id, snap: Snapshot, sv: set<Id>, tv: set<Id>,
                           u: Id, snapU: Snapshot, su: set<Id>, tu: set<Id>, checkID: string)
    requires v in W && u in W && u != v
    requires Computed(snap, f, W, v, sv, tv) && Computed(snapU, f, W, u, su, tu)
    requires !snap.Holds(digest, checkID)
    requires su <= sv + {v, u} && TrustsLike(W, v, tv, u, tu)
    requires u in HolderSet(f, Of(digest, checkID), ViewAt(W, v, sv, tv), REPLICATION)
    ensures snapU.Holds(digest, checkID)
  {
    RoutingHubIsNoArchive(f, digest, W, v, snap, sv, tv, checkID);
    NamedHolderHolds(f, W, v, sv, tv, u, su, tu, Of(digest, checkID), REPLICATION);
  }

  /** The announcements of every other hub of the mesh, each with a URL. */
  ghost predicate WholeDirectory(W: World, v: Id, live: seq<HubAnnouncement>)
    requires v in W
  {
    && DirectoryList(W[v], live) && Current(W, live)
    && Announced(live) == W.Keys - {v}
    && forall a :: a in live ==> a.PublicURL != ""
  }

  lemma WholeDirectoryView(W: World, v: Id, live: seq<HubAnnouncement>)
    requires v in W && WholeDirectory(W, v, live)
    ensures ViewOf(ViewHubs(W[v], live, {})) == ViewAt(W, v, W.Keys, {})
  {
    DirectoryGivesView(W, v, live, {});
    assert ViewAt(W, v, Announced(live), {}) == ViewAt(W, v, W.Keys, {});
  }

  /**
   What `HolderURLs` returns to a hub that does not store a check: the announced URLs of exactly
   min(3, able) hubs, each of which stores it by its own interest set.
   */
  lemma PushURLsReachEveryHolder(f: Draw, digest: Digest, W: World, snaps: map<Id, Snapshot>, v: Id,
                                 live: seq<HubAnnouncement>, checkID: string)
    requires snaps.Keys == W.Keys && v in W && WholeDirectory(W, v, live)
    requires forall u :: u in W ==> Computed(snaps[u], f, W, u, W.Keys, {})
    requires !snaps[v].Holds(digest, checkID)
    ensures var named := set a | NamedHolder(f, digest, W[v], live, {}, checkID, a) && a in live :: a.HubID;
      |named| == Min(3, |Eligible(W)|) && named <= Keepers(W, snaps, digest, checkID)
    ensures forall a :: NamedHolder(f, digest, W[v], live, {}, checkID, a) ==> a.PublicURL != ""
  {
    var targets := HolderSet(f, Of(digest, checkID), ViewAt(W, v, W.Keys, {}), REPLICATION);
    PushReachesEveryHolder(f, digest, W, snaps, v, checkID);
    WholeDirectoryView(W, v, live);
    var named := set a | NamedHolder(f, digest, W[v], live, {}, checkID, a) && a in live :: a.HubID;
    forall u
      ensures u in named <==> u in targets
    {
      if u in targets {
        assert u in Announced(live);
        var i := AnnouncedIndex(live, u);
        assert NamedHolder(f, digest, W[v], live, {}, checkID, live[i]);
      }
    }
    assert named == targets;
  }
}
