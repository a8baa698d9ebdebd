/** The repair loop of hub/main.go: page one holder's shard backward by timestamp. */
module Backfill {
  import opened Protocol
  import opened Ranking
  import opened Sorting
  import opened ResultStore

  function Kept(rs: seq<Row>, admits: Row -> bool): seq<Row> {
    if rs == [] then []
    else
      var r := rs[|rs| - 1];
      if admits(r) then Kept(rs[..|rs| - 1], admits) + [r] else Kept(rs[..|rs| - 1], admits)
  }

  /** What a page adds to the store, and how many of its rows were admitted. */
  function Ingested(all: seq<Row>, rs: seq<Row>, admits: Row -> bool): (seq<Row>, nat) {
    if rs == [] then (all, 0)
    else
      var done := Ingested(all, rs[..|rs| - 1], admits);
      if admits(rs[|rs| - 1]) then (InsertOne(done.0, rs[|rs| - 1]), done.1 + 1) else done
  }

  lemma IngestedStep(all: seq<Row>, rs: seq<Row>, i: nat, admits: Row -> bool)
    requires i < |rs|
    ensures Ingested(all, rs[..i + 1], admits) ==
      var done := Ingested(all, rs[..i], admits);
      if admits(rs[i]) then (InsertOne(done.0, rs[i]), done.1 + 1) else done
  {
    assert rs[..i + 1][..i] == rs[..i];
  }

  lemma {:induction false} IngestedIsKept(all: seq<Row>, rs: seq<Row>, admits: Row -> bool)
    ensures Ingested(all, rs, admits) == (InsertAll(all, Kept(rs, admits)), |Kept(rs, admits)|)
    ensures |Kept(rs, admits)| <= |rs|
  {
    if rs != [] {
      IngestedIsKept(all, rs[..|rs| - 1], admits);
      InsertAllAppend(all, Kept(rs[..|rs| - 1], admits), rs[|rs| - 1]);
    }
  }

  lemma {:induction false} KeptHas(rs: seq<Row>, admits: Row -> bool)
    ensures forall r :: r in Kept(rs, admits) <==> r in rs && admits(r)
  {
    if rs != [] {
      KeptHas(rs[..|rs| - 1], admits);
      assert rs == rs[..|rs| - 1] + [rs[|rs| - 1]];
    }
  }

  /** Inserting keeps what is stored, in place. */
  lemma {:induction false} InsertAllKeeps(all: seq<Row>, rs: seq<Row>)
    ensures all <= InsertAll(all, rs)
  {
    if rs != [] {
      InsertAllKeeps(all, rs[..|rs| - 1]);
    }
  }

  /** It adds nothing but what is inserted. */
  lemma {:induction false} InsertAllAdds(all: seq<Row>, rs: seq<Row>)
    ensures forall r :: r in InsertAll(all, rs) ==> r in all || r in rs
  {
    if rs != [] {
      InsertAllAdds(all, rs[..|rs| - 1]);
      InsertOneHas(InsertAll(all, rs[..|rs| - 1]), rs[|rs| - 1]);
    }
  }

  /** It leaves nothing that is inserted unrepresented. */
  lemma {:induction false} InsertAllGrows(all: seq<Row>, rs: seq<Row>, i: nat)
    requires i <= |rs|
    ensures InsertAll(all, rs[..i]) <= InsertAll(all, rs)
  {
    if i == |rs| {
      assert rs[..i] == rs;
    } else {
      var n := |rs| - 1;
      assert rs[..n][..i] == rs[..i];
      InsertAllGrows(all, rs[..n], i);
    }
  }

  lemma InsertAllCovers(all: seq<Row>, rs: seq<Row>, i: nat, key: string)
    requires i < |rs| && key == DedupeKey(rs[i])
    ensures key in Keys(InsertAll(all, rs))
  {
    assert rs[..i + 1][..i] == rs[..i];
    InsertOneCovers(InsertAll(all, rs[..i]), rs[i], key);
    InsertAllGrows(all, rs, i + 1);
    KeysGrow(InsertAll(all, rs[..i + 1]), InsertAll(all, rs), key);
  }

  lemma KeysGrow(all: seq<Row>, more: seq<Row>, key: string)
    requires all <= more && key in Keys(all)
    ensures key in Keys(more)
  {
  }

  lemma InsertOneCovers(all: seq<Row>, r: Row, key: string)
    ensures key in Keys(all) || key == DedupeKey(r) ==> key in Keys(InsertOne(all, r))
  {
    InsertOneHas(all, r);
  }

  lemma StoreHas(all: seq<Row>, rs: seq<Row>)
    ensures all <= InsertAll(all, rs)
    ensures forall r :: r in InsertAll(all, rs) ==> r in all || r in rs
    ensures forall r :: r in rs ==> DedupeKey(r) in Keys(InsertAll(all, rs))
  {
    InsertAllKeeps(all, rs);
    InsertAllAdds(all, rs);
    forall r | r in rs
      ensures DedupeKey(r) in Keys(InsertAll(all, rs))
    {
      var i :| 0 <= i < |rs| && rs[i] == r;
      InsertAllCovers(all, rs, i, DedupeKey(r));
    }
  }

  lemma InsertOneHas(all: seq<Row>, r: Row)
    ensures all <= InsertOne(all, r)
    ensures forall q :: q in InsertOne(all, r) ==> q in all || q == r
    ensures forall k :: k in Keys(InsertOne(all, r)) <==> k in Keys(all) || k == DedupeKey(r)
  {
    if DedupeKey(r) !in Keys(all) {
      var after := all + [r];
      assert forall q :: q in after <==> q in all || q == r;
    }
  }

  ghost predicate Has(all: seq<Row>, match_: Row -> bool, since: int, before: int, r: Row) {
    r in all && r.TimestampMS >= since && (before <= 0 || r.TimestampMS < before) && match_(r)
  }

  lemma {:induction false} MatchingHas(all: seq<Row>, match_: Row -> bool, since: int, before: int)
    ensures forall r :: r in Matching(all, match_, since, before) <==> Has(all, match_, since, before, r)
    ensures forall r ::
      multiset(Matching(all, match_, since, before))[r] == (if InWindow(r, since, before) && match_(r) then multiset(all)[r] else 0)
  {
    if all != [] {
      var init, r := all[..|all| - 1], all[|all| - 1];
      assert all == init + [r];
      MatchingHas(init, match_, since, before);
    }
  }

  /** What a page of an honest holder guarantees. */
  lemma PageIsNewest(out: seq<Row>, all: seq<Row>, match_: Row -> bool, since: int, before: int, limit: nat)
    requires limit > 0 && IsPage(out, all, match_, since, before, limit)
    ensures |out| <= limit
    ensures multiset(out) <= multiset(Matching(all, match_, since, before))
    ensures forall r :: r in out ==> Has(all, match_, since, before, r)
    ensures forall r, q :: Has(all, match_, since, before, r) && r !in out && q in out ==> r.TimestampMS <= q.TimestampMS
    ensures |out| < limit ==> forall r :: Has(all, match_, since, before, r) ==> r in out
  {
    var M := Matching(all, match_, since, before);
    var ranked :| multiset(ranked) == multiset(M) && Sorted(Newest(), ranked) &&
      out == if limit > 0 && |ranked| > limit then ranked[..limit] else ranked;
    MatchingHas(all, match_, since, before);
    SameElements(ranked, M);
    assert forall r :: r in ranked <==> r in Elements(ranked);
    assert forall r :: r in M <==> r in Elements(M);
    CutIsNewest(ranked, |out|);
    assert out == ranked[..|out|];
  }

  /** Cutting a newest-first list keeps the newest. */
  lemma CutIsNewest(ranked: seq<Row>, n: nat)
    requires Sorted(Newest(), ranked) && n <= |ranked|
    ensures multiset(ranked[..n]) <= multiset(ranked)
    ensures forall r :: r in ranked[..n] ==> r in ranked
    ensures forall r, q :: r in ranked && r !in ranked[..n] && q in ranked[..n] ==> r.TimestampMS <= q.TimestampMS
  {
    assert ranked == ranked[..n] + ranked[n..];
    forall r, q | r in ranked && r !in ranked[..n] && q in ranked[..n]
      ensures r.TimestampMS <= q.TimestampMS
    {
      var i :| 0 <= i < |ranked| && ranked[i] == r;
      var j :| 0 <= j < n && ranked[..n][j] == q;
      assert i >= n;
      assert !Newest()(ranked[i], ranked[j]);
    }
  }

  /** Oldest timestamp of a non-empty page. */
  ghost predicate IsOldest(res: seq<Row>, oldest: int) {
    (exists r :: r in res && r.TimestampMS == oldest) && forall r :: r in res ==> oldest <= r.TimestampMS
  }

  /** r was returned, or some returned row bears its timestamp. */
  ghost predicate Covered(fetched: seq<Row>, r: Row) {
    r in fetched || exists q :: q in fetched && q.TimestampMS == r.TimestampMS
  }

  ghost predicate AllCovered(all: seq<Row>, match_: Row -> bool, since: int, fetched: seq<Row>) {
    forall r :: Has(all, match_, since, 0, r) ==> Covered(fetched, r)
  }

  /** Everything the holder has is covered, or still ahead of the cursor. */
  ghost predicate Progress(all: seq<Row>, match_: Row -> bool, since: int, before: int, fetched: seq<Row>) {
    && (forall r :: r in fetched ==> Has(all, match_, since, 0, r))
    && multiset(fetched) + multiset(Matching(all, match_, since, before)) <= multiset(Matching(all, match_, since, 0))
    && forall r :: Has(all, match_, since, 0, r) ==> Covered(fetched, r) || Has(all, match_, since, before, r)
  }

  /** One page moves the cursor: no row comes back, and only ties with the page's oldest are passed over. */
  lemma PageProgress(all: seq<Row>, match_: Row -> bool, since: int, before: int, fetched: seq<Row>, res: seq<Row>, oldest: int)
    requires since > 0 && (before == 0 || before >= since) && Progress(all, match_, since, before, fetched)
    requires multiset(res) <= multiset(Matching(all, match_, since, before))
    requires forall r :: r in res ==> Has(all, match_, since, before, r)
    requires forall r, q :: Has(all, match_, since, before, r) && r !in res && q in res ==> r.TimestampMS <= q.TimestampMS
    requires IsOldest(res, oldest)
    ensures oldest >= since && (before == 0 || oldest < before)
    ensures Progress(all, match_, since, oldest, fetched + res)
  {
    NothingTwice(all, match_, since, before, fetched, res, oldest);
    forall r | Has(all, match_, since, 0, r)
      ensures Covered(fetched + res, r) || Has(all, match_, since, oldest, r)
    {
      PassedOver(all, match_, since, before, fetched, res, oldest, r);
    }
  }

  lemma NothingTwice(all: seq<Row>, match_: Row -> bool, since: int, before: int, fetched: seq<Row>, res: seq<Row>, oldest: int)
    requires multiset(fetched) + multiset(Matching(all, match_, since, before)) <= multiset(Matching(all, match_, since, 0))
    requires multiset(res) <= multiset(Matching(all, match_, since, before))
    requires forall r :: r in res ==> Has(all, match_, since, before, r)
    requires since > 0 && IsOldest(res, oldest)
    ensures multiset(fetched + res) + multiset(Matching(all, match_, since, oldest)) <= multiset(Matching(all, match_, since, 0))
  {
    PageApart(all, match_, since, before, res, oldest);
    AddUp(multiset(fetched), multiset(res), multiset(Matching(all, match_, since, oldest)),
          multiset(Matching(all, match_, since, before)), multiset(Matching(all, match_, since, 0)));
    assert multiset(fetched + res) == multiset(fetched) + multiset(res);
  }

  lemma PageApart(all: seq<Row>, match_: Row -> bool, since: int, before: int, res: seq<Row>, oldest: int)
    requires multiset(res) <= multiset(Matching(all, match_, since, before))
    requires forall r :: r in res ==> Has(all, match_, since, before, r)
    requires since > 0 && IsOldest(res, oldest)
    ensures multiset(res) + multiset(Matching(all, match_, since, oldest)) <= multiset(Matching(all, match_, since, before))
  {
    var Mb, Mo := multiset(Matching(all, match_, since, before)), multiset(Matching(all, match_, since, oldest));
    forall r
      ensures multiset(res)[r] + Mo[r] <= Mb[r]
    {
      if r in res {
        NotLater(all, match_, since, oldest, r);
      } else {
        NotMore(all, match_, since, before, oldest, r);
        assert r !in multiset(res);
      }
    }
  }

  lemma NotLater(all: seq<Row>, match_: Row -> bool, since: int, oldest: int, r: Row)
    requires 0 < oldest <= r.TimestampMS
    ensures multiset(Matching(all, match_, since, oldest))[r] == 0
  {
    MatchingHas(all, match_, since, oldest);
  }

  lemma NotMore(all: seq<Row>, match_: Row -> bool, since: int, before: int, oldest: int, r: Row)
    requires oldest > 0 && (before > 0 ==> oldest <= before)
    ensures multiset(Matching(all, match_, since, oldest))[r] <= multiset(Matching(all, match_, since, before))[r]
  {
    MatchingHas(all, match_, since, before);
    MatchingHas(all, match_, since, oldest);
  }

  lemma AddUp(F: multiset<Row>, R: multiset<Row>, later: multiset<Row>, now: multiset<Row>, M: multiset<Row>)
    requires F + now <= M && R + later <= now
    ensures F + R + later <= M
  {
  }

  lemma PassedOver(all: seq<Row>, match_: Row -> bool, since: int, before: int, fetched: seq<Row>, res: seq<Row>, oldest: int, r: Row)
    requires Covered(fetched, r) || Has(all, match_, since, before, r)
    requires forall r, q :: Has(all, match_, since, before, r) && r !in res && q in res ==> r.TimestampMS <= q.TimestampMS
    requires since > 0 && IsOldest(res, oldest)
    ensures Covered(fetched + res, r) || Has(all, match_, since, oldest, r)
  {
    if r !in fetched && r !in res {
      if Covered(fetched, r) {
        var q :| q in fetched && q.TimestampMS == r.TimestampMS;
        assert q in fetched + res;
      } else {
        var q :| q in res && q.TimestampMS == oldest;
        assert q in fetched + res && r.TimestampMS <= oldest;
      }
    }
  }

  method Oldest(res: seq<Row>) returns (oldest: int)
    requires res != []
    ensures IsOldest(res, oldest)
  {
    oldest := res[0].TimestampMS;
    for i := 0 to |res|
      invariant exists r :: r in res && r.TimestampMS == oldest
      invariant forall j :: 0 <= j < i ==> oldest <= res[j].TimestampMS
    {
      if res[i].TimestampMS < oldest {
        oldest := res[i].TimestampMS;
      }
    }
  }

  /** One request: the next page and its oldest timestamp; a short page is the last one. */
  method FetchPage(holder: MemStore, match_: Row -> bool, since: int, before: int, page: nat, ghost fetched: seq<Row>)
    returns (res: seq<Row>, oldest: int)
    requires since > 0 && page > 0 && (before == 0 || before >= since)
    requires Progress(holder.all, match_, since, before, fetched)
    ensures |res| <= page
    ensures |res| < page ==> AllCovered(holder.all, match_, since, fetched + res)
    ensures res != [] ==> oldest >= since && (before == 0 || oldest < before)
    ensures res != [] ==> Progress(holder.all, match_, since, oldest, fetched + res)
  {
    res := holder.FilterSince(match_, since, before, page);
    oldest := 0;
    PageIsNewest(res, holder.all, match_, since, before, page);
    if |res| > 0 {
      oldest := Oldest(res);
      PageProgress(holder.all, match_, since, before, fetched, res, oldest);
    }
    if |res| < page {
      LastPage(holder.all, match_, since, before, fetched, res);
    }
  }

  lemma LastPage(all: seq<Row>, match_: Row -> bool, since: int, before: int, fetched: seq<Row>, res: seq<Row>)
    requires Progress(all, match_, since, before, fetched)
    requires forall r :: Has(all, match_, since, before, r) ==> r in res
    ensures AllCovered(all, match_, since, fetched + res)
  {
    forall r | Has(all, match_, since, 0, r)
      ensures Covered(fetched + res, r)
    {
      if Covered(fetched, r) && r !in fetched {
        var q :| q in fetched && q.TimestampMS == r.TimestampMS;
        assert q in fetched + res;
      }
    }
  }

  /** Store the admitted rows of one page. */
  method Ingest(res: seq<Row>, admits: Row -> bool, store: MemStore) returns (stored: nat)
    requires store.Valid()
    modifies store
    ensures store.Valid() && (store.all, stored) == Ingested(old(store.all), res, admits)
  {
    stored := 0;
    for i := 0 to |res|
      invariant store.Valid() && (store.all, stored) == Ingested(old(store.all), res[..i], admits)
    {
      IngestedStep(old(store.all), res, i, admits);
      if admits(res[i]) {
        store.Insert(res[i]);
        stored := stored + 1;
      }
    }
    assert res[..|res|] == res;
  }

  lemma InsertAllAppend(all: seq<Row>, a: seq<Row>, r: Row)
    ensures InsertAll(all, a + [r]) == InsertOne(InsertAll(all, a), r)
  {
    assert (a + [r])[..|a|] == a;
  }

  lemma {:induction false} InsertAllConcat(all: seq<Row>, a: seq<Row>, b: seq<Row>)
    ensures InsertAll(all, a + b) == InsertAll(InsertAll(all, a), b)
  {
    if b == [] {
      assert a + b == a;
    } else {
      assert (a + b)[..|a + b| - 1] == a + b[..|b| - 1];
      InsertAllConcat(all, a, b[..|b| - 1]);
    }
  }

  lemma {:induction false} KeptConcat(a: seq<Row>, b: seq<Row>, admits: Row -> bool)
    ensures Kept(a + b, admits) == Kept(a, admits) + Kept(b, admits)
  {
    if b == [] {
      assert a + b == a;
    } else {
      assert (a + b)[..|a + b| - 1] == a + b[..|b| - 1];
      KeptConcat(a, b[..|b| - 1], admits);
    }
  }

  /**
   Page one holder until it is exhausted or the shard's cap is reached.  `fetched` is every
   row the holder returned, in order; `admits` is the policy, admission and interest gate.
   */
  method FromHolder(holder: MemStore, match_: Row -> bool, since: int, page: nat, cap: nat, total0: nat,
                    admits: Row -> bool, store: MemStore)
    returns (total: nat, ghost fetched: seq<Row>)
    requires holder != store && store.Valid()
    requires since > 0 && page > 0
    modifies store
    ensures store.Valid() && store.all == InsertAll(old(store.all), Kept(fetched, admits))
    ensures total == total0 + |Kept(fetched, admits)|
    // what was stored stays, a new row was fetched and admitted, and every admitted one is stored under its key
    ensures old(store.all) <= store.all
    ensures forall r :: r in store.all ==> r in old(store.all) || (r in fetched && admits(r))
    ensures forall r :: r in fetched && admits(r) ==> DedupeKey(r) in Keys(store.all)
    // no more than one page past the cap
    ensures total0 < cap ==> total < cap + page
    // nothing is returned twice, nothing is invented
    ensures multiset(fetched) <= multiset(Matching(holder.all, match_, since, 0))
    // unless the cap stopped it, only rows that tie with a returned one can be missing
    ensures total < cap ==> AllCovered(holder.all, match_, since, fetched)
  {
    total := total0;
    fetched := [];
    var before := 0;
    var done := false;
    InsertAllConcat(store.all, [], []);
    while total < cap && !done
      invariant store.Valid() && store.all == InsertAll(old(store.all), Kept(fetched, admits))
      invariant total == total0 + |Kept(fetched, admits)|
      invariant total0 < cap ==> total < cap + page
      invariant before == 0 || before >= since
      invariant Progress(holder.all, match_, since, before, fetched)
      invariant done ==> AllCovered(holder.all, match_, since, fetched)
      decreases !done, before == 0, before
    {
      var res, oldest := FetchPage(holder, match_, since, before, page, fetched);
      if |res| == 0 {
        done := true;
      } else {
        InsertAllConcat(old(store.all), Kept(fetched, admits), Kept(res, admits));
        KeptConcat(fetched, res, admits);
        IngestedIsKept(store.all, res, admits);
        var stored := Ingest(res, admits, store);
        total := total + stored;
        fetched := fetched + res;
        done := |res| < page;
        before := oldest;
      }
    }
    KeptHas(fetched, admits);
    StoreHas(old(store.all), Kept(fetched, admits));
  }

  /** When no two of the holder's rows share a timestamp, nothing at all is missed. */
  lemma DistinctTimesMissNothing(all: seq<Row>, match_: Row -> bool, since: int, fetched: seq<Row>)
    requires forall r, q :: r in all && q in all && r.TimestampMS == q.TimestampMS ==> r == q
    requires multiset(fetched) <= multiset(Matching(all, match_, since, 0))
    requires AllCovered(all, match_, since, fetched)
    ensures forall r :: Has(all, match_, since, 0, r) <==> r in fetched
  {
    MatchingHas(all, match_, since, 0);
    forall q | q in fetched
      ensures Has(all, match_, since, 0, q)
    {
      assert q in multiset(fetched);
      assert q in multiset(Matching(all, match_, since, 0));
    }
  }
}
