/**
 Owner-signed records as a hub keeps them: last writer wins by version stamp, deletes
 are tombstones, and expired entries are dropped whenever the store is listed.
 Shared by the subscription and the alert-rule store.
 */
module Lww {

  datatype Rec<P> = Rec(key: string, updated: int, expiry: int, deleted: bool, payload: P)

  type Store<P> = map<string, Rec<P>>

  /** Expiry 0 (or below) means never. */
  predicate Expired<P>(r: Rec<P>, now: int) {
    r.expiry > 0 && r.expiry < now
  }

  function Upsert<P>(m: Store<P>, r: Rec<P>): Store<P> {
    if r.key in m && r.updated <= m[r.key].updated then m else m[r.key := r]
  }

  function Prune<P>(m: Store<P>, now: int): Store<P> {
    map k | k in m && !Expired(m[k], now) :: m[k]
  }

  /** Every record in the store, tombstones included. */
  ghost function All<P(!new)>(m: Store<P>): set<Rec<P>> {
    set k | k in m :: m[k]
  }

  ghost function Active<P(!new)>(m: Store<P>): set<Rec<P>> {
    set k | k in m && !m[k].deleted :: m[k]
  }

  // ---- runs ----

  datatype Event<P> = Receive(r: Rec<P>) | List(now: int)

  function Apply<P>(m: Store<P>, e: Event<P>): Store<P> {
    match e
    case Receive(r) => Upsert(m, r)
    case List(now) => Prune(m, now)
  }

  ghost function Run<P(!new)>(es: seq<Event<P>>): (m: Store<P>)
    ensures forall k :: k in m ==> m[k].key == k && m[k] in Received(es)
  {
    if es == [] then map[]
    else
      Apply(Run(es[..|es| - 1]), es[|es| - 1])
  }

  ghost function Received<P(!new)>(es: seq<Event<P>>): set<Rec<P>> {
    if es == [] then {}
    else
      var R := Received(es[..|es| - 1]);
      match es[|es| - 1]
      case Receive(r) => R + {r}
      case List(_) => R
  }

  /** The time of the last listing; Unix milliseconds, so never below 0. */
  ghost function Clock<P(!new)>(es: seq<Event<P>>): int {
    if es == [] then 0
    else
      match es[|es| - 1]
      case Receive(_) => Clock(es[..|es| - 1])
      case List(now) => now
  }

  ghost predicate ClockOrdered<P(!new)>(es: seq<Event<P>>) {
    es == [] ||
    (ClockOrdered(es[..|es| - 1]) && (es[|es| - 1].List? ==> es[|es| - 1].now >= Clock(es[..|es| - 1])))
  }

  // ---- what a hub should show: a function of the set of records received ----

  ghost predicate IsNewest<P(!new)>(r: Rec<P>, R: set<Rec<P>>) {
    r in R && forall q :: q in R && q.key == r.key ==> q.updated <= r.updated
  }

  /** The newest-version view: one live record per key, no pruning, no order. */
  ghost function NewestActive<P(!new)>(R: set<Rec<P>>, now: int): set<Rec<P>> {
    set r | r in R && IsNewest(r, R) && !r.deleted && !Expired(r, now)
  }

  /** b outlives a: there is no time at which b has expired and a has not. */
  ghost predicate NoLater<P>(a: Rec<P>, b: Rec<P>) {
    b.expiry <= 0 || 0 < a.expiry <= b.expiry
  }

  /**
   What owners must respect when they re-sign a record: a live version is never outlived by
   nothing newer, and its stamp is its own.
   */
  ghost predicate Safe<P(!new)>(R: set<Rec<P>>) {
    forall a, b :: a in R && b in R && a.key == b.key && !a.deleted ==>
      && (a.updated < b.updated ==> NoLater(a, b))
      && (a.updated == b.updated ==> a == b)
  }

  /** What the next listing at time `now` returns. */
  ghost function Listing<P(!new)>(es: seq<Event<P>>, now: int): set<Rec<P>> {
    Active(Prune(Run(es), now))
  }

  // ---- the pruned store refines the never-pruned view ----

  /** Some newest record of key k is still stored, or has expired by time t. */
  ghost predicate Tracks<P(!new)>(m: Store<P>, R: set<Rec<P>>, t: int, k: string) {
    exists q :: IsNewest(q, R) && q.key == k && ((k in m && m[k] == q) || Expired(q, t))
  }

  lemma {:induction false} RunTracks<P(!new)>(es: seq<Event<P>>)
    requires ClockOrdered(es)
    ensures Clock(es) >= 0
    ensures forall r :: r in Received(es) ==> Tracks(Run(es), Received(es), Clock(es), r.key)
  {
    if es != [] {
      var init, e := es[..|es| - 1], es[|es| - 1];
      RunTracks(init);
      forall p | p in Received(es)
        ensures Tracks(Run(es), Received(es), Clock(es), p.key)
      {
        match e
        case Receive(r) => ReceiveTracks(Run(init), Received(init), Clock(init), r, p);
        case List(now) =>
          var q :| IsNewest(q, Received(init)) && q.key == p.key &&
            ((p.key in Run(init) && Run(init)[p.key] == q) || Expired(q, Clock(init)));
          assert IsNewest(q, Received(es));
      }
    }
  }

  lemma ReceiveTracks<P(!new)>(m: Store<P>, R: set<Rec<P>>, t: int, r: Rec<P>, p: Rec<P>)
    requires forall k :: k in m ==> m[k].key == k && m[k] in R
    requires forall x :: x in R ==> Tracks(m, R, t, x.key)
    requires p in R + {r}
    ensures Tracks(Upsert(m, r), R + {r}, t, p.key)
  {
    if x :| x in R && x.key == p.key {
      var q :| IsNewest(q, R) && q.key == x.key && ((x.key in m && m[x.key] == q) || Expired(q, t));
      NewestWithOneMore(R, r, q);
      if r.key == p.key && r.updated > q.updated {
        assert IsNewest(r, R + {r});
      } else {
        assert IsNewest(q, R + {r});
      }
    } else {
      assert p == r && IsNewest(r, R + {r});
    }
  }

  lemma NewestWithOneMore<P(!new)>(R: set<Rec<P>>, r: Rec<P>, q: Rec<P>)
    requires IsNewest(q, R)
    ensures r.key == q.key && r.updated > q.updated ==> IsNewest(r, R + {r})
    ensures !(r.key == q.key && r.updated > q.updated) ==> IsNewest(q, R + {r})
  {
  }

  lemma ListingHas<P(!new)>(es: seq<Event<P>>, now: int, r: Rec<P>)
    ensures r in Listing(es, now) <==>
      r.key in Run(es) && Run(es)[r.key] == r && !r.deleted && !Expired(r, now)
  {
    var m := Prune(Run(es), now);
    if r.key in m && m[r.key] == r && !r.deleted {
      assert r in Active(m);
    }
  }

  lemma TrackedIsNewest<P(!new)>(m: Store<P>, R: set<Rec<P>>, t: int, now: int, r: Rec<P>)
    requires forall k :: k in m ==> m[k].key == k && m[k] in R
    requires r in R && Safe(R) && Tracks(m, R, t, r.key) && now >= t
    ensures (r.key in m && m[r.key] == r && !r.deleted && !Expired(r, now)) <==> r in NewestActive(R, now)
  {
    var q :| IsNewest(q, R) && q.key == r.key && ((r.key in m && m[r.key] == q) || Expired(q, t));
    assert r.updated <= q.updated;
    assert !r.deleted ==> (r.updated < q.updated ==> NoLater(r, q)) && (r.updated == q.updated ==> r == q);
  }

  lemma ListedIsNewest<P(!new)>(es: seq<Event<P>>, now: int, r: Rec<P>)
    requires ClockOrdered(es) && now >= Clock(es) && Safe(Received(es))
    ensures r in Listing(es, now) <==> r in NewestActive(Received(es), now)
  {
    ListingHas(es, now, r);
    if r in Received(es) {
      RunTracks(es);
      TrackedIsNewest(Run(es), Received(es), Clock(es), now, r);
    }
  }

  /** Whatever the order, duplicates, replays and pruning times, a listing shows the newest-version view. */
  lemma ListingIsNewest<P(!new)>(es: seq<Event<P>>, now: int)
    requires ClockOrdered(es) && now >= Clock(es)
    requires Safe(Received(es))
    ensures Listing(es, now) == NewestActive(Received(es), now)
  {
    forall r
      ensures r in Listing(es, now) <==> r in NewestActive(Received(es), now)
    {
      ListedIsNewest(es, now, r);
    }
  }

  /** So what is stored under a key answers for the newest version: it is that, or that is deleted or expired. */
  lemma StoredIsNewest<P(!new)>(es: seq<Event<P>>, now: int, r: Rec<P>)
    requires ClockOrdered(es) && now >= Clock(es) && Safe(Received(es))
    ensures r in NewestActive(Received(es), now) <==>
      r.key in Run(es) && Run(es)[r.key] == r && !r.deleted && !Expired(r, now)
  {
    ListingHas(es, now, r);
    ListedIsNewest(es, now, r);
  }

  // ---- and the condition is exact ----

  ghost predicate ListsNewest<P(!new)>(es: seq<Event<P>>, now: int) {
    Listing(es, now) == NewestActive(Received(es), now)
  }

  ghost predicate Possible<P(!new)>(es: seq<Event<P>>, now: int, R: set<Rec<P>>) {
    ClockOrdered(es) && now >= Clock(es) && Received(es) <= R
  }

  lemma Step<P(!new)>(es: seq<Event<P>>, e: Event<P>)
    ensures Run(es + [e]) == Apply(Run(es), e)
    ensures Received(es + [e]) == Received(es) + if e.Receive? then {e.r} else {}
    ensures Clock(es + [e]) == if e.List? then e.now else Clock(es)
    ensures ClockOrdered(es + [e]) <==> ClockOrdered(es) && (e.List? ==> e.now >= Clock(es))
  {
    assert (es + [e])[..|es + [e]| - 1] == es;
  }

  /** A run over the versions a and b in which a is listed although the newer b had arrived. */
  ghost predicate Resurrects<P(!new)>(es: seq<Event<P>>, now: int, a: Rec<P>, b: Rec<P>) {
    && ClockOrdered(es) && now >= Clock(es)
    && b in Received(es) && Received(es) <= {a, b}
    && a in Listing(es, now)
  }

  lemma Resurrecting<P(!new)>(a: Rec<P>, b: Rec<P>) returns (es: seq<Event<P>>, now: int)
    requires a.key == b.key && a.updated < b.updated
    requires !a.deleted && !NoLater(a, b)
    ensures Resurrects(es, now, a, b) && a in Received(es)
  {
    now := b.expiry + 1;
    es := [];
    Step(es, Receive(b));
    Step(es + [Receive(b)], List(now));
    Step(es + [Receive(b)] + [List(now)], Receive(a));
    es := es + [Receive(b)] + [List(now)] + [Receive(a)];
    ListingHas(es, now, a);
  }

  /** An older live version can come back exactly when it outlives the newer one. */
  lemma Resurrection<P(!new)>(a: Rec<P>, b: Rec<P>)
    requires a.key == b.key && a.updated < b.updated
    ensures (exists es, now :: Resurrects(es, now, a, b)) <==> !a.deleted && !NoLater(a, b)
  {
    if !a.deleted && !NoLater(a, b) {
      var es, now := Resurrecting(a, b);
    }
    if es, now :| Resurrects(es, now, a, b) {
      ListingHas(es, now, a);
      if NoLater(a, b) {
        assert Safe(Received(es));
        ListedIsNewest(es, now, a);
        assert false;
      }
    }
  }

  lemma TiedStamps<P(!new)>(a: Rec<P>, b: Rec<P>) returns (es: seq<Event<P>>)
    requires a.key == b.key && a.updated == b.updated && a != b && !a.deleted
    ensures ClockOrdered(es) && Clock(es) == 0 && Received(es) == {a, b} && !ListsNewest(es, 0)
  {
    es := [];
    Step(es, Receive(b));
    Step(es + [Receive(b)], Receive(a));
    es := es + [Receive(b)] + [Receive(a)];
    ListingHas(es, 0, a);
    assert IsNewest(a, Received(es));
  }

  /** Hubs are right about R in every run if, and only if, R is safe. */
  lemma ExactlyTheSafeSets<P(!new)>(R: set<Rec<P>>)
    ensures Safe(R) <==> forall es, now :: Possible(es, now, R) ==> ListsNewest(es, now)
  {
    if Safe(R) {
      forall es, now | Possible(es, now, R)
        ensures ListsNewest(es, now)
      {
        ListingIsNewest(es, now);
      }
    } else {
      var a, b :| a in R && b in R && a.key == b.key && !a.deleted &&
        ((a.updated < b.updated && !NoLater(a, b)) || (a.updated == b.updated && a != b));
      if a.updated < b.updated {
        var es, now := Resurrecting(a, b);
        assert a !in NewestActive(Received(es), now);
        assert Possible(es, now, R) && !ListsNewest(es, now);
      } else {
        var es := TiedStamps(a, b);
        assert Possible(es, 0, R) && !ListsNewest(es, 0);
      }
    }
  }

  /** Hubs that received the same safe records agree, however the records reached them. */
  lemma HubsAgree<P(!new)>(es: seq<Event<P>>, gs: seq<Event<P>>, now: int)
    requires ClockOrdered(es) && now >= Clock(es) && ClockOrdered(gs) && now >= Clock(gs)
    requires Received(es) == Received(gs) && Safe(Received(es))
    ensures Listing(es, now) == Listing(gs, now)
  {
    ListingIsNewest(es, now);
    ListingIsNewest(gs, now);
  }

  lemma LiveStampIsUnique<P(!new)>(R: set<Rec<P>>, r: Rec<P>, d: Rec<P>)
    requires Safe(R) && IsNewest(r, R) && !r.deleted && d in R && d.key == r.key && d.deleted
    ensures r.updated > d.updated
  {
  }

  /** Once a delete has arrived, nothing older under that key is ever listed again. */
  lemma DeletedStaysDeleted<P(!new)>(es: seq<Event<P>>, now: int, d: Rec<P>)
    requires ClockOrdered(es) && now >= Clock(es) && Safe(Received(es))
    requires d in Received(es) && d.deleted
    ensures forall r :: r in Listing(es, now) && r.key == d.key ==> r.updated > d.updated
  {
    forall r | r in Listing(es, now) && r.key == d.key
      ensures r.updated > d.updated
    {
      ListedIsNewest(es, now, r);
      LiveStampIsUnique(Received(es), r, d);
    }
  }
}
