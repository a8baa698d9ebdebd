/** hub/store/subscription.go: the in-memory subscription store. */
module Subscriptions {
  import opened Lww
  import opened Ranking
  import ResultStore

  datatype Subscription = Subscription(
    Owner: string, CheckID: string, IntervalSeconds: int, ExpiryMS: int, UpdatedMS: int, Deleted: bool)

  function SubKey(s: Subscription): string {
    s.Owner + "|" + s.CheckID
  }

  function AsRec(s: Subscription): Rec<Subscription> {
    Rec(SubKey(s), s.UpdatedMS, s.ExpiryMS, s.Deleted, s)
  }

  /** Without bars in the owners an entry belongs to one owner and one check. */
  lemma OwnEntry(s: Subscription, t: Subscription)
    requires '|' !in s.Owner && '|' !in t.Owner
    ensures SubKey(s) == SubKey(t) <==> s.Owner == t.Owner && s.CheckID == t.CheckID
  {
    if SubKey(s) == SubKey(t) {
      ResultStore.FirstBar(s.Owner, s.CheckID, t.Owner, t.CheckID);
    }
  }

  /** So a subscription of another owner, or to another check, never displaces one. */
  lemma NeverDisplaced(m: Store<Subscription>, s: Subscription, t: Subscription)
    requires '|' !in s.Owner && '|' !in t.Owner && (s.Owner != t.Owner || s.CheckID != t.CheckID)
    requires SubKey(s) in m && m[SubKey(s)] == AsRec(s)
    ensures var m' := Lww.Upsert(m, AsRec(t)); SubKey(s) in m' && m'[SubKey(s)] == AsRec(s)
  {
    OwnEntry(s, t);
  }

  predicate ExpiredSub(s: Subscription, now: int) {
    s.ExpiryMS > 0 && s.ExpiryMS < now
  }

  /** What is left at time now: the entries that never expire or have not yet. */
  ghost predicate Unexpired(before: map<string, Subscription>, now: int, after: map<string, Subscription>) {
    && (forall k :: k in after <==> k in before && (before[k].ExpiryMS <= 0 || before[k].ExpiryMS >= now))
    && (forall k :: k in after ==> after[k] == before[k])
  }

  class MemSubscriptions {
    var subs: map<string, Subscription>
    /** Everything that has happened to this store. */
    ghost var events: seq<Event<Subscription>>

    ghost predicate Valid()
      reads this
    {
      Contents() == Run(events)
    }

    ghost function Contents(): Store<Subscription>
      reads this
    {
      map k | k in subs :: AsRec(subs[k])
    }

    constructor ()
      ensures Valid() && events == []
    {
      subs := map[];
      events := [];
    }

    method Upsert(s: Subscription)
      requires Valid()
      modifies this
      ensures Valid() && events == old(events) + [Receive(AsRec(s))]
      ensures subs == if SubKey(s) in old(subs) && s.UpdatedMS <= old(subs)[SubKey(s)].UpdatedMS then old(subs) else old(subs)[SubKey(s) := s]
    {
      Step(events, Receive(AsRec(s)));
      var key := SubKey(s);
      if key in subs && s.UpdatedMS <= subs[key].UpdatedMS {
        events := events + [Receive(AsRec(s))];
        return;
      }
      subs := subs[key := s];
      events := events + [Receive(AsRec(s))];
    }

    /** Live subscriptions; expired entries are dropped on the way. */
    method ListActive(now: int) returns (out: seq<Subscription>)
      requires Valid()
      modifies this
      ensures Valid() && events == old(events) + [List(now)]
      ensures Distinct(out) && (set s | s in out :: AsRec(s)) == Listing(old(events), now)
      ensures ClockOrdered(events) && Safe(Received(events)) ==>
        (set s | s in out :: AsRec(s)) == NewestActive(Received(events), now)
      ensures forall s :: s in out <==> SubKey(s) in subs && subs[SubKey(s)] == s && !s.Deleted
      ensures Unexpired(old(subs), now, subs)
    {
      Step(events, List(now));
      assert forall k :: k in subs ==> Contents()[k].key == SubKey(subs[k]);
      out := Scan(now, false);
      ListedAre(old(Contents()), now, out);
      events := events + [List(now)];
      if ClockOrdered(events) && Safe(Received(events)) {
        ListingIsNewest(old(events), now);
      }
    }

    /** Live subscriptions and unexpired tombstones, for anti-entropy. */
    method ListForGossip(now: int) returns (out: seq<Subscription>)
      requires Valid()
      modifies this
      ensures Valid() && events == old(events) + [List(now)]
      ensures Distinct(out) && (set s | s in out :: AsRec(s)) == All(Run(events))
      ensures forall s :: s in out <==> SubKey(s) in subs && subs[SubKey(s)] == s
      ensures Unexpired(old(subs), now, subs)
    {
      Step(events, List(now));
      assert forall k :: k in subs ==> Contents()[k].key == SubKey(subs[k]);
      out := Scan(now, true);
      GossipedAre(old(Contents()), now, out);
      events := events + [List(now)];
    }

    /** The common loop: walk the entries in any order, deleting the expired ones. */
    method Scan(now: int, tombstones: bool) returns (out: seq<Subscription>)
      requires forall k :: k in subs ==> SubKey(subs[k]) == k
      modifies this`subs
      ensures subs == map k | k in old(subs) && !ExpiredSub(old(subs)[k], now) :: old(subs)[k]
      ensures Distinct(out)
      ensures forall s :: s in out <==> SubKey(s) in subs && subs[SubKey(s)] == s && (tombstones || !s.Deleted)
    {
      out := [];
      var todo := subs.Keys;
      while todo != {}
        invariant todo <= old(subs).Keys
        invariant subs == map k | k in old(subs) && (k in todo || !ExpiredSub(old(subs)[k], now)) :: old(subs)[k]
        invariant Distinct(out)
        invariant forall s :: s in out <==>
          SubKey(s) in subs && SubKey(s) !in todo && subs[SubKey(s)] == s && (tombstones || !s.Deleted)
      {
        var key :| key in todo;
        todo := todo - {key};
        var ss := subs[key];
        if ExpiredSub(ss, now) {
          subs := subs - {key};
          continue;
        }
        if ss.Deleted && !tombstones {
          continue;
        }
        out := out + [ss];
      }
    }
  }

  lemma ListedAre(m: Store<Subscription>, now: int, out: seq<Subscription>)
    requires forall k :: k in m ==> m[k] == AsRec(m[k].payload) && m[k].key == k
    requires forall s :: s in out <==> SubKey(s) in Prune(m, now) && Prune(m, now)[SubKey(s)] == AsRec(s) && !s.Deleted
    ensures (set s | s in out :: AsRec(s)) == Active(Prune(m, now))
  {
    forall r | r in Active(Prune(m, now))
      ensures r in set s | s in out :: AsRec(s)
    {
      assert r.payload in out;
    }
  }

  lemma GossipedAre(m: Store<Subscription>, now: int, out: seq<Subscription>)
    requires forall k :: k in m ==> m[k] == AsRec(m[k].payload) && m[k].key == k
    requires forall s :: s in out <==> SubKey(s) in Prune(m, now) && Prune(m, now)[SubKey(s)] == AsRec(s)
    ensures (set s | s in out :: AsRec(s)) == All(Prune(m, now))
  {
    forall r | r in All(Prune(m, now))
      ensures r in set s | s in out :: AsRec(s)
    {
      assert r.payload in out;
    }
  }
}
